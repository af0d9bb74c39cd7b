/** DroidCoverage/src/main/java/phd/research/coverage/Coverage.java: the per-run coverage
    series read from an instrumented log, the table of all runs (`testResults`) and the
    statistics over it. A `MonkeyAllCoverage` object is a `Coverage` object whose
    `monkeyAll` flag is set: its `addTestCoverage` is the overriding one. */
module Coverage {
  import opened Wrappers
  import opened JStrings
  import opened JavaInt
  import opened Graph
  import opened LogHandler
  import opened CoverageStatistics
  import MonkeyAllCoverage

  const EVENT_COUNT: string := "Events injected: 500"
  const MONKEY_FINISHED: string := "// Monkey finished"
  const M_SWITCH: string := "Monkey  : :Switch"
  const M_TOUCH: string := "Monkey  : :Sending Touch"

  // ---------------------------------------------------------------- getTestNumber

  /** Where `$` of java.util.regex (without MULTILINE) can follow a digit: at the end of
      the input, or before a final line terminator ("\r\n" counting as one). */
  function DollarEnd(s: string): (e: nat)
    ensures e <= |s|
    ensures e < |s| ==> IsLineTerminator(s[e])
    ensures |s| - e <= 2
  {
    if |s| >= 2 && s[|s| - 2] == '\r' && s[|s| - 1] == '\n' then |s| - 2
    else if |s| >= 1 && IsLineTerminator(s[|s| - 1]) then |s| - 1
    else |s|
  }

  lemma SliceSnoc(s: string, i: nat, j: nat)
    requires i < j <= |s|
    ensures s[i..j] == s[i..j - 1] + [s[j - 1]]
  {
  }

  lemma DigitsSnoc(d: string, c: char)
    requires AllDigits(d) && IsDigit(c)
    ensures AllDigits(d + [c])
  {
    assert forall i | 0 <= i < |d| :: (d + [c])[i] == d[i];
  }

  /** The longest run of digits ending at `e`. */
  function TrailingDigits(s: string, e: nat): (d: string)
    requires e <= |s|
    ensures |d| <= e && AllDigits(d) && d == s[e - |d|..e]
    ensures |d| < e ==> !IsDigit(s[e - |d| - 1])
    decreases e
  {
    if e > 0 && IsDigit(s[e - 1]) then
      var p := TrailingDigits(s, e - 1);
      SliceSnoc(s, e - 1 - |p|, e);
      DigitsSnoc(p, s[e - 1]);
      p + [s[e - 1]]
    else []
  }

  /** `getTestNumber(fileName)`: the number written by the digits at the end of the
      name (`\d+$`, the leftmost and so the longest such run), -1 when the name does
      not end in a digit, the exception of `parseInt` when that number exceeds an int. */
  function GetTestNumber(fileName: string): (r: Result<int>)
    ensures r.Err? ==> r.error == NumberFormat
    ensures r == Ok(-1) <==> (DollarEnd(fileName) == 0 || !IsDigit(fileName[DollarEnd(fileName) - 1]))
    ensures r.Ok? && r.value != -1 ==> 0 <= r.value <= INT_MAX
    ensures var d := TrailingDigits(fileName, DollarEnd(fileName));
      d != [] ==> r == if DigitsValue(d) <= INT_MAX then Ok(DigitsValue(d)) else Err(NumberFormat)
  {
    var digits := TrailingDigits(fileName, DollarEnd(fileName));
    if digits == [] then Ok(-1) else ParseInt(digits)
  }

  /** Leading zeros in the trailing run are ignored: "Test_007" is test 7, like "Test_7". */
  lemma LeadingZerosIgnored(prefix: string, digits: string, terminator: string)
    requires |digits| > 0 && AllDigits(digits)
    requires prefix == [] || !IsDigit(prefix[|prefix| - 1])
    requires terminator in {"", "\n", "\r", "\r\n"}
    ensures GetTestNumber(prefix + "0" + digits + terminator) == GetTestNumber(prefix + digits + terminator)
  {
    var padded := "0" + digits;
    LeadingZeroValue(digits);
    assert prefix + "0" + digits + terminator == prefix + padded + terminator;
    TrailingRunNumber(prefix, padded, terminator);
    TrailingRunNumber(prefix, digits, terminator);
    ParseIntLeadingZero(digits);
  }

  /** A name that ends in the decimal rendering of an int after a non-digit (like
      "Test_12") yields that int, with or without a final line terminator. */
  lemma {:induction false} TestNumberRoundTrip(prefix: string, n: nat, terminator: string)
    requires n <= INT_MAX
    requires prefix == [] || !IsDigit(prefix[|prefix| - 1])
    requires terminator in {"", "\n", "\r", "\r\n"}
    ensures GetTestNumber(prefix + NatToString(n) + terminator) == Ok(n)
  {
    TrailingRunNumber(prefix, NatToString(n), terminator);
    ParseNatRoundTrip(n);
  }

  /** A name ending in a run of digits after a non-digit, with or without a final line
      terminator, gives what `parseInt` makes of that run. */
  lemma TrailingRunNumber(prefix: string, digits: string, terminator: string)
    requires |digits| > 0 && AllDigits(digits)
    requires prefix == [] || !IsDigit(prefix[|prefix| - 1])
    requires terminator in {"", "\n", "\r", "\r\n"}
    ensures GetTestNumber(prefix + digits + terminator) == ParseInt(digits)
  {
    var body := prefix + digits;
    var s := body + terminator;
    assert body[|body| - 1] == digits[|digits| - 1];
    DollarEndAfter(body, terminator);
    TrailingRunIn(s, prefix, digits, terminator);
    TestNumberIs(s, digits);
  }

  /** Every non-negative int parses back from its digits. */
  lemma ParseNatRoundTrip(n: nat)
    requires n <= INT_MAX
    ensures ParseInt(NatToString(n)) == Ok(n)
  {
    ParseIntRoundTrip(n);
  }

  /** A final line terminator, if any, is where `$` matches. */
  lemma DollarEndAfter(body: string, terminator: string)
    requires |body| > 0 && IsDigit(body[|body| - 1])
    requires terminator in {"", "\n", "\r", "\r\n"}
    ensures DollarEnd(body + terminator) == |body|
  {
    var s := body + terminator;
    assert s[|body| - 1] == body[|body| - 1];
    if terminator == "\r\n" {
      assert s[|s| - 2] == '\r' && s[|s| - 1] == '\n';
    } else if terminator != "" {
      assert s[|s| - 1] == terminator[0];
    }
  }

  /** The trailing run ending before the terminator is the whole rendered number. */
  lemma TrailingRunIn(s: string, prefix: string, digits: string, terminator: string)
    requires s == prefix + digits + terminator && AllDigits(digits)
    requires prefix == [] || !IsDigit(prefix[|prefix| - 1])
    ensures TrailingDigits(s, |prefix| + |digits|) == digits
  {
    var e := |prefix| + |digits|;
    forall i | |prefix| <= i < e ensures IsDigit(s[i]) {
      assert s[i] == digits[i - |prefix|];
    }
    if prefix != [] {
      assert s[|prefix| - 1] == prefix[|prefix| - 1];
    }
    TrailingRun(s, |prefix|, e);
    assert s[|prefix|..e] == digits;
  }

  /** The digits between a non-digit (or the start) and `e` are the trailing run. */
  lemma {:induction false} TrailingRun(s: string, b: nat, e: nat)
    requires b <= e <= |s|
    requires forall i | b <= i < e :: IsDigit(s[i])
    requires b == 0 || !IsDigit(s[b - 1])
    ensures TrailingDigits(s, e) == s[b..e]
    decreases e
  {
    if e > b {
      TrailingRun(s, b, e - 1);
      assert IsDigit(s[e - 1]);
      assert TrailingDigits(s, e) == TrailingDigits(s, e - 1) + [s[e - 1]];
      assert s[b..e] == s[b..e - 1] + [s[e - 1]];
    } else {
      assert TrailingDigits(s, e) == [];
    }
  }

  /** A trailing number beyond the int range makes `parseInt` throw. */
  lemma {:induction false} TestNumberOverflow(prefix: string, n: nat)
    requires n > INT_MAX
    requires prefix == [] || !IsDigit(prefix[|prefix| - 1])
    ensures GetTestNumber(prefix + NatToString(n)) == Err(NumberFormat)
  {
    var digits := NatToString(n);
    var s := prefix + digits;
    assert s + "" == s;
    assert s[|s| - 1] == digits[|digits| - 1];
    DollarEndAfter(s, "");
    TrailingRunIn(s + "", prefix, digits, "");
    TestNumberIs(s, digits);
    ParseIntOverflow(digits);
  }

  /** The test number is what `parseInt` makes of the trailing digits before `$`. */
  lemma TestNumberIs(s: string, digits: string)
    requires TrailingDigits(s, DollarEnd(s)) == digits && digits != []
    ensures GetTestNumber(s) == ParseInt(digits)
  {
  }

  /** Digits worth more than an int make `parseInt` throw. */
  lemma ParseIntOverflow(digits: string)
    requires |digits| > 0 && AllDigits(digits) && DigitsValue(digits) > INT_MAX
    ensures ParseInt(digits) == Err(NumberFormat)
  {
    assert digits[0] != '-' && digits[0] != '+';
  }

  // ---------------------------------------------------------------- verifyInteractionCount

  /** `verifyInteractionCount(log)`: some line reports 500 injected events, and some line
      reports that Monkey finished without also reporting the events (the else-if). */
  method VerifyInteractionCount(log: seq<string>) returns (verified: bool)
    ensures verified <==>
      (exists i | 0 <= i < |log| :: Contains(log[i], EVENT_COUNT))
      && (exists j | 0 <= j < |log| :: Contains(log[j], MONKEY_FINISHED) && !Contains(log[j], EVENT_COUNT))
  {
    var eventCountVerified := false;
    var monkeyFinished := false;
    var n := 0;
    while n < |log|
      invariant 0 <= n <= |log|
      invariant eventCountVerified <==> exists i | 0 <= i < n :: Contains(log[i], EVENT_COUNT)
      invariant monkeyFinished <==>
        exists j | 0 <= j < n :: Contains(log[j], MONKEY_FINISHED) && !Contains(log[j], EVENT_COUNT)
      invariant !(eventCountVerified && monkeyFinished)
    {
      var line := log[n];
      if Contains(line, EVENT_COUNT) {
        eventCountVerified := true;
      } else if Contains(line, MONKEY_FINISHED) {
        monkeyFinished := true;
      }
      n := n + 1;
      if eventCountVerified && monkeyFinished {
        return true;
      }
    }
    return false;
  }

  // ---------------------------------------------------------------- the read loop of addTestCoverage

  /** The state of `addTestCoverage`'s read loop: the graph, `count`, the series so far
      and the exception that ended the loop, if any. */
  datatype Run = Run(graph: GraphState, count: nat, series: Series, failure: Option<Exception>)

  /** The number of marker lines. */
  function MarkerCount(lines: seq<string>): nat
    decreases |lines|
  {
    if lines == [] then 0
    else MarkerCount(lines[..|lines| - 1]) + (if IsMarker(lines[|lines| - 1]) then 1 else 0)
  }

  /** One line: a marker snapshots the coverage under `count` and moves `count` on; any
      other tagged line goes to `handleInstrumentLog`; after an exception nothing happens. */
  function Step(run: Run, scene: Scene, line: string): Run {
    if run.failure.Some? then run
    else if IsMarker(line) then
      run.(series := run.series[run.count := CoverageOf(run.graph)], count := run.count + 1)
    else if IsTagged(line) then
      match ApplyLine(Visit, run.graph, scene, line)
      case Err(e) => run.(failure := Some(e))
      case Ok(g) => run.(graph := g)
    else run
  }

  function Replay(start: GraphState, scene: Scene, lines: seq<string>): (run: Run)
    ensures forall k :: k in run.series <==> 0 <= k < run.count
    decreases |lines|
  {
    if lines == [] then Run(start, 0, map[], None)
    else Step(Replay(start, scene, lines[..|lines| - 1]), scene, lines[|lines| - 1])
  }

  /** Without an exception, `count` ends as the number of markers. */
  lemma {:induction false} ReplayCount(start: GraphState, scene: Scene, lines: seq<string>)
    ensures Replay(start, scene, lines).failure.None? ==> Replay(start, scene, lines).count == MarkerCount(lines)
    decreases |lines|
  {
    if lines != [] {
      var init := lines[..|lines| - 1];
      ReplayCount(start, scene, init);
      var prev, line := Replay(start, scene, init), lines[|lines| - 1];
      var run := Replay(start, scene, lines);
      assert run == Step(prev, scene, line);
      assert MarkerCount(lines) == MarkerCount(init) + (if IsMarker(line) then 1 else 0);
      if run.failure.None? {
        assert prev.failure.None?;
        assert run.count == prev.count + (if IsMarker(line) then 1 else 0);
      }
    }
  }

  /** The series `addTestCoverage` stores (the snapshots and a final one under `count`),
      or the exception it throws. */
  function RecordedSeries(start: GraphState, scene: Scene, lines: seq<string>): (r: Result<Series>)
    ensures r.Ok? ==> forall k :: k in r.value <==> 0 <= k <= MarkerCount(lines)
    ensures r.Err? <==> Replay(start, scene, lines).failure.Some?
  {
    ReplayCount(start, scene, lines);
    var run := Replay(start, scene, lines);
    if run.failure.Some? then Err(run.failure.value)
    else Ok(run.series[run.count := CoverageOf(run.graph)])
  }

  /** A log with k markers gives exactly k + 1 entries, under the keys 0 to k. */
  lemma {:induction false} SeriesSize(start: GraphState, scene: Scene, lines: seq<string>)
    requires RecordedSeries(start, scene, lines).Ok?
    ensures var s := RecordedSeries(start, scene, lines).value;
      |s| == MarkerCount(lines) + 1 && forall k | k in s :: 0 <= k <= MarkerCount(lines)
  {
    var s := RecordedSeries(start, scene, lines).value;
    RangeCard(s.Keys, MarkerCount(lines) + 1);
    assert |s| == |s.Keys|;
  }

  /** The keys 0 to n - 1 are n keys. */
  lemma {:induction false} RangeCard(keys: set<int>, n: nat)
    requires forall k :: k in keys <==> 0 <= k < n
    ensures |keys| == n
  {
    if n > 0 {
      RangeCard(keys - {n - 1}, n - 1);
    } else {
      assert (forall k :: k !in keys) ==> keys == {};
    }
  }

  /** One line never rewrites a stored snapshot, and after an exception it changes nothing. */
  lemma StepKeeps(run: Run, scene: Scene, line: string)
    requires forall k :: k in run.series <==> 0 <= k < run.count
    ensures var next := Step(run, scene, line);
      run.count <= next.count
      && (forall i | i in run.series :: i in next.series && next.series[i] == run.series[i])
      && (run.failure.Some? ==> next == run)
  {
    if run.failure.None? && IsMarker(line) {
      assert run.count !in run.series;
    }
  }

  /** Later lines never rewrite a stored snapshot, and after an exception nothing changes. */
  lemma {:induction false} Persist(start: GraphState, scene: Scene, lines: seq<string>, q: nat)
    requires q <= |lines|
    ensures var a, b := Replay(start, scene, lines[..q]), Replay(start, scene, lines);
      a.count <= b.count
      && (forall i | i in a.series :: i in b.series && b.series[i] == a.series[i])
      && (a.failure.Some? ==> b == a)
    decreases |lines| - q
  {
    if q < |lines| {
      var a := Replay(start, scene, lines[..q]);
      var longer := lines[..q + 1];
      assert longer[..q] == lines[..q];
      assert Replay(start, scene, longer) == Step(a, scene, lines[q]);
      StepKeeps(a, scene, lines[q]);
      Persist(start, scene, lines, q + 1);
    } else {
      assert lines[..q] == lines;
    }
  }

  /** Snapshot i is the coverage after exactly the lines before the (i+1)-th marker; the
      marker line itself is not applied to the graph, even when it carries a tag. */
  lemma {:induction false} SnapshotAtMarker(start: GraphState, scene: Scene, lines: seq<string>, p: nat)
    requires p < |lines| && IsMarker(lines[p]) && RecordedSeries(start, scene, lines).Ok?
    ensures var before := Replay(start, scene, lines[..p]);
      before.count == MarkerCount(lines[..p])
      && Replay(start, scene, lines[..p + 1]).graph == before.graph
      && before.count in RecordedSeries(start, scene, lines).value
      && RecordedSeries(start, scene, lines).value[before.count] == CoverageOf(before.graph)
  {
    var before := Replay(start, scene, lines[..p]);
    var run := Replay(start, scene, lines);
    Persist(start, scene, lines, p);
    Persist(start, scene, lines, p + 1);
    assert before.failure.None?;
    ReplayCount(start, scene, lines[..p]);
    assert lines[..p + 1][..p] == lines[..p];
    var after := Replay(start, scene, lines[..p + 1]);
    assert after == Step(before, scene, lines[p]);
    assert after.series[before.count] == CoverageOf(before.graph);
    assert before.count in after.series;
    assert run.series[before.count] == CoverageOf(before.graph);
  }

  /** The graph only gained visits since `start`, every snapshot is a non-negative pair
      not above the current coverage, and no snapshot is above a later one. */
  ghost predicate Ordered(start: GraphState, run: Run) {
    VisitedMore(start, run.graph)
    && (WellFormed(start) ==> WellFormed(run.graph))
    && (forall i | i in run.series ::
          AtMost(Snapshot(0.0, 0.0), run.series[i]) && AtMost(run.series[i], CoverageOf(run.graph)))
    && (forall i, j | i in run.series && j in run.series && i <= j :: AtMost(run.series[i], run.series[j]))
  }

  lemma {:induction false} StepOrdered(start: GraphState, run: Run, scene: Scene, line: string)
    requires Ordered(start, run) && forall k :: k in run.series <==> 0 <= k < run.count
    ensures Ordered(start, Step(run, scene, line))
  {
    if run.failure.None? {
      if IsMarker(line) {
        var next := Step(run, scene, line);
        assert next.graph == run.graph;
        assert next.series == run.series[run.count := CoverageOf(run.graph)];
      } else if IsTagged(line) {
        var r := RegexLogMessage(line, scene);
        if r.Ok? && r.value.Some? {
          var g := VisitData(run.graph, r.value.value);
          VisitCoverageMonotone(run.graph, r.value.value);
          assert Step(run, scene, line) == run.(graph := g);
        }
      }
    }
  }

  /** Along a run the graph only gains visits, so no snapshot is above a later one. */
  lemma {:induction false} ReplayMonotone(start: GraphState, scene: Scene, lines: seq<string>)
    ensures Ordered(start, Replay(start, scene, lines))
    decreases |lines|
  {
    if lines != [] {
      ReplayMonotone(start, scene, lines[..|lines| - 1]);
      StepOrdered(start, Replay(start, scene, lines[..|lines| - 1]), scene, lines[|lines| - 1]);
    }
  }

  /** The stored series never decreases, and its values are percentages. */
  lemma {:induction false} SeriesMonotone(start: GraphState, scene: Scene, lines: seq<string>)
    requires WellFormed(start) && RecordedSeries(start, scene, lines).Ok?
    ensures var s := RecordedSeries(start, scene, lines).value;
      (forall i, j | i in s && j in s && i <= j :: AtMost(s[i], s[j]))
      && (forall i | i in s :: 0.0 <= s[i].interfaceCoverage <= 100.0 && 0.0 <= s[i].methodCoverage <= 100.0)
  {
    ReplayMonotone(start, scene, lines);
    var run := Replay(start, scene, lines);
    var s := RecordedSeries(start, scene, lines).value;
    forall i | i in s
      ensures 0.0 <= s[i].interfaceCoverage <= 100.0 && 0.0 <= s[i].methodCoverage <= 100.0
    {
      if i < run.count {
        CoverageGrows(start, run.graph);
      }
    }
  }

  /** When no line carries both a marker and a tag, the Monkey recorder's read loop
      and this one keep the same graph and meet the same exception. */
  lemma {:induction false} ApplyAllTracksReplay(start: GraphState, scene: Scene, lines: seq<string>)
    requires forall i | 0 <= i < |lines| :: !(IsMarker(lines[i]) && IsTagged(lines[i]))
    ensures var p, run := MonkeyAllCoverage.ApplyAll(start, scene, lines), Replay(start, scene, lines);
      p.graph == run.graph && p.failure == run.failure
    decreases |lines|
  {
    if lines != [] {
      var init, line := lines[..|lines| - 1], lines[|lines| - 1];
      forall i | 0 <= i < |init| ensures !(IsMarker(init[i]) && IsTagged(init[i])) {
        assert init[i] == lines[i];
      }
      ApplyAllTracksReplay(start, scene, init);
      assert !(IsMarker(line) && IsTagged(line));
    }
  }

  /** Under the same condition the Monkey recorder's one snapshot is this one's final snapshot. */
  lemma TerminalMatchesFinal(start: GraphState, scene: Scene, lines: seq<string>)
    requires forall i | 0 <= i < |lines| :: !(IsMarker(lines[i]) && IsTagged(lines[i]))
    ensures MonkeyAllCoverage.ApplyAll(start, scene, lines).graph == Replay(start, scene, lines).graph
    ensures MonkeyAllCoverage.TerminalSeries(start, scene, lines).Ok? <==> RecordedSeries(start, scene, lines).Ok?
    ensures MonkeyAllCoverage.TerminalSeries(start, scene, lines).Ok? ==>
      MonkeyAllCoverage.TerminalSeries(start, scene, lines).value[0]
        == RecordedSeries(start, scene, lines).value[MarkerCount(lines)]
  {
    ApplyAllTracksReplay(start, scene, lines);
    ReplayCount(start, scene, lines);
  }

  /** The read loop of `addTestCoverage(testNumber, log, droidGraph)`. */
  method ReadCoverageSeries(log: seq<string>, scene: Scene, droidGraph: DroidGraph) returns (r: Result<Series>)
    modifies droidGraph
    ensures r == RecordedSeries(old(droidGraph.State()), scene, log)
    ensures droidGraph.State() == Replay(old(droidGraph.State()), scene, log).graph
  {
    ghost var start := droidGraph.State();
    var testCoverage: Series := map[];
    var count := 0;
    var i := 0;
    while i < |log|
      invariant 0 <= i <= |log|
      invariant Replay(start, scene, log[..i]) == Run(droidGraph.State(), count, testCoverage, None)
    {
      var line := log[i];
      assert log[..i + 1][..i] == log[..i];
      if Contains(line, I_TAG) {
        var currentCoverage := droidGraph.CalculateCoverage();
        testCoverage := testCoverage[count := currentCoverage];
        count := count + 1;
      } else if Contains(line, M_TAG) || Contains(line, C_TAG) {
        var res := HandleInstrumentLog(line, scene, droidGraph);
        if res.Err? {
          Persist(start, scene, log, i + 1);
          return Err(res.error);
        }
      }
      i := i + 1;
    }
    assert log[..i] == log;
    var finalCoverage := droidGraph.CalculateCoverage();
    testCoverage := testCoverage[count := finalCoverage];
    return Ok(testCoverage);
  }

  // ---------------------------------------------------------------- the table of results

  /** A row of `outputReadableCoverageResults`: the header or (interaction, coverage). */
  datatype Row = Header | Entry(interaction: int, coverage: Snapshot)

  /** The rows `outputReadableCoverageResults` lays out: slot key + 1 holds key's row, slot 0
      the header unless key -1 overwrote it, and a slot no key reaches stays empty. */
  function Rows(results: Series): (rows: seq<Option<Row>>)
    ensures |rows| == |results| + 1
  {
    seq(|results| + 1, i => if i - 1 in results then Some(Entry(i - 1, results[i - 1]))
                            else if i == 0 then Some(Header) else None)
  }

  /** A series with the keys 0 to n - 1 fills every row, in key order, under the header. */
  lemma {:induction false} ContiguousRows(results: Series, n: nat)
    requires forall k :: k in results <==> 0 <= k < n
    ensures |results| == n
    ensures forall k | k in results :: -1 <= k < |results|
    ensures Rows(results)[0] == Some(Header)
    ensures forall i | 1 <= i <= n :: Rows(results)[i] == Some(Entry(i - 1, results[i - 1]))
  {
    RangeCard(results.Keys, n);
    assert |results| == |results.Keys|;
  }

  /** A MonkeyAllCoverage object is a Coverage object with `monkeyAll` set. */
  class Coverage {
    const monkeyAll: bool
    var testResults: Results

    /** Every stored series has an entry under 0, as both recorders store one. */
    ghost predicate Valid()
      reads this
    {
      forall t | t in testResults :: 0 in testResults[t]
    }

    constructor(monkeyAll: bool)
      ensures this.monkeyAll == monkeyAll && testResults == map[] && Valid()
    {
      this.monkeyAll := monkeyAll;
      testResults := map[];
    }

    /** `addTestCoverage(testNumber, log, droidGraph)`: read the log into a series and store
        it under `testNumber`, replacing a series stored there and keeping all others; an
        exception leaves the table as it was (the graph keeps the lines applied so far). */
    method AddTestCoverage(testNumber: int, log: seq<string>, scene: Scene, droidGraph: DroidGraph)
      returns (r: Result<()>)
      requires Valid()
      modifies this, droidGraph
      ensures Valid()
      ensures var start := old(droidGraph.State());
        var series := if monkeyAll then MonkeyAllCoverage.TerminalSeries(start, scene, log)
                      else RecordedSeries(start, scene, log);
        (r.Ok? <==> series.Ok?)
        && (r.Ok? ==> testResults == old(testResults)[testNumber := series.value])
        && (r.Err? ==> r.error == series.error && testResults == old(testResults))
      ensures droidGraph.State() ==
        if monkeyAll then MonkeyAllCoverage.ApplyAll(old(droidGraph.State()), scene, log).graph
        else Replay(old(droidGraph.State()), scene, log).graph
    {
      var testCoverage;
      if monkeyAll {
        testCoverage := MonkeyAllCoverage.ReadTerminalCoverage(log, scene, droidGraph);
      } else {
        testCoverage := ReadCoverageSeries(log, scene, droidGraph);
      }
      if testCoverage.Err? {
        return Err(testCoverage.error);
      }
      assert 0 in testCoverage.value;
      testResults := testResults[testNumber := testCoverage.value];
      return Ok(());
    }

    /** The nested loops of `calculateAverageResults` (totals), `calculateMinimumValues`
        and `calculateMaximumValues`: every run's every entry merged into the value stored
        under its index, in whatever order the maps are walked. */
    method Accumulate(stat: Statistic) returns (acc: Series)
      ensures acc == Aggregate(stat, testResults)
    {
      acc := map[];
      ghost var done: set<int> := {};
      var remaining := testResults.Keys;
      while remaining != {}
        invariant remaining <= testResults.Keys && done == testResults.Keys - remaining
        invariant forall k :: Lookup(acc, k) == Reduce(stat, testResults, done, k)
        decreases remaining
      {
        Witness(remaining);
        var testKey :| testKey in remaining;
        ghost var before := acc;
        acc := MergeSeries(stat, acc, testResults[testKey]);
        ReduceStep(stat, testResults, done, testKey, before, acc);
        done := done + {testKey};
        remaining := remaining - {testKey};
      }
      assert done == testResults.Keys;
      ReducedIsAggregate(stat, testResults, acc);
    }

    /** `calculateAverageResults()` */
    method CalculateAverageResults() returns (averages: Series)
      ensures averages == Averages(testResults)
    {
      var totals := Accumulate(Total);
      averages := map[];
      var numberOfTests := |testResults.Keys|;
      assert numberOfTests == |testResults|;
      var keys := totals.Keys;
      while keys != {}
        invariant keys <= totals.Keys
        invariant averages == map k | k in totals.Keys - keys :: Scale(totals[k], |testResults|)
        decreases keys
      {
        Witness(keys);
        var totalsKey :| totalsKey in keys;
        AverageAt(testResults, totalsKey);
        averages := averages[totalsKey := Scale(totals[totalsKey], numberOfTests)];
        keys := keys - {totalsKey};
      }
      if |testResults| == 0 {
        assert AllKeys(testResults) == {} by {
          forall k | k in AllKeys(testResults) ensures false {
            AverageAt(testResults, k);
          }
        }
      } else {
        forall k | k in totals ensures averages[k] == Averages(testResults)[k] {
          AverageAt(testResults, k);
        }
      }
    }

    /** `calculateMinimumValues()` */
    method CalculateMinimumValues() returns (minimums: Series)
      ensures minimums == Aggregate(Minimum, testResults)
    {
      minimums := Accumulate(Minimum);
    }

    /** `calculateMaximumValues()` */
    method CalculateMaximumValues() returns (maximums: Series)
      ensures maximums == Aggregate(Maximum, testResults)
    {
      maximums := Accumulate(Maximum);
    }

    /** `getResultsOverview()` without its number formatting: the average at the largest
        index; `Collections.max` of no keys throws when no run has been added. */
    method GetResultsOverview() returns (r: Result<Snapshot>)
      requires Valid()
      ensures r.Err? <==> |testResults| == 0
      ensures r.Err? ==> r.error == NoSuchElement
      ensures r.Ok? ==> (|AllKeys(testResults)| != 0
        && r.value == Averages(testResults)[Largest(AllKeys(testResults))])
    {
      var averages := CalculateAverageResults();
      ZeroReached(testResults);
      if |averages| == 0 {
        return Err(NoSuchElement);
      }
      var largestKey := MaxKey(averages.Keys);
      return Ok(averages[largestKey]);
    }

    /** `getTestResults(testNumber)`: -1, -2 and -3 select the averages, maximums and
        minimums; any other number the stored series, or null (None) when there is none. */
    method GetTestResults(testNumber: int) returns (r: Option<Series>)
      ensures testNumber == -1 ==> r == Some(Averages(testResults))
      ensures testNumber == -2 ==> r == Some(Aggregate(Maximum, testResults))
      ensures testNumber == -3 ==> r == Some(Aggregate(Minimum, testResults))
      ensures testNumber !in {-1, -2, -3} ==>
        r == if testNumber in testResults then Some(testResults[testNumber]) else None
    {
      if testNumber == -1 {
        var averages := CalculateAverageResults();
        return Some(averages);
      } else if testNumber == -2 {
        var maximums := CalculateMaximumValues();
        return Some(maximums);
      } else if testNumber == -3 {
        var minimums := CalculateMinimumValues();
        return Some(minimums);
      }
      return if testNumber in testResults then Some(testResults[testNumber]) else None;
    }

    /** `outputReadableCoverageResults(testNumber, outputFile)` up to the rendering: the
        rows of the selected series; a missing series is dereferenced (null). The
        `Statistic` overload calls it with -1 (average), -2 (maximum) or -3 (minimum). */
    method ReadableRows(testNumber: int) returns (r: Result<seq<Option<Row>>>)
      ensures testNumber == -1 ==> r == PlacedRows(Averages(testResults))
      ensures testNumber == -2 ==> r == PlacedRows(Aggregate(Maximum, testResults))
      ensures testNumber == -3 ==> r == PlacedRows(Aggregate(Minimum, testResults))
      ensures testNumber !in {-1, -2, -3} && testNumber !in testResults ==> r == Err(NullPointer)
      ensures testNumber in testResults && testNumber !in {-1, -2, -3} ==>
        r == PlacedRows(testResults[testNumber])
    {
      var results := GetTestResults(testNumber);
      if results.None? {
        return Err(NullPointer);
      }
      r := PlaceRows(results.value);
    }
  }

  /** Every index's reduction over all runs, stored where it is defined, is the aggregate. */
  lemma ReducedIsAggregate(stat: Statistic, results: Results, acc: Series)
    requires forall k :: Lookup(acc, k) == Reduce(stat, results, results.Keys, k)
    ensures acc == Aggregate(stat, results)
  {
    forall k ensures k in acc <==> k in AllKeys(results) {
      InAllKeys(stat, results, k);
      assert Lookup(acc, k) == Reduce(stat, results, results.Keys, k);
    }
    forall k | k in acc ensures acc[k] == Aggregate(stat, results)[k] {
      assert Lookup(acc, k) == Reduce(stat, results, results.Keys, k);
    }
  }

  /** When every series has index 0, index 0 is reached as soon as there is a run. */
  lemma ZeroReached(results: Results)
    requires forall t | t in results :: 0 in results[t]
    ensures |results| != 0 <==> 0 in AllKeys(results)
    ensures |results| == 0 ==> AllKeys(results) == {}
  {
    if |results| != 0 {
      assert |results.Keys| == |results|;
      Witness(results.Keys);
      var t :| t in results;
      assert 0 in results[t];
    }
  }

  function Lookup(m: Series, k: int): Option<Snapshot> {
    if k in m then Some(m[k]) else None
  }

  /** Merging run t into values reduced over `done` gives the values reduced over `done` and t. */
  lemma ReduceStep(stat: Statistic, results: Results, done: set<int>, t: int, before: Series, after: Series)
    requires t in results && t !in done
    requires forall k :: Lookup(before, k) == Reduce(stat, results, done, k)
    requires forall k :: Lookup(after, k) == Add(stat, Lookup(before, k), Lookup(results[t], k))
    ensures forall k :: Lookup(after, k) == Reduce(stat, results, done + {t}, k)
  {
    forall k ensures Lookup(after, k) == Reduce(stat, results, done + {t}, k) {
      ReduceRemove(stat, results, done + {t}, k, t);
      assert done + {t} - {t} == done;
    }
  }

  /** The inner loop of the statistics: one run's entries merged into the stored values,
      each index on its own. */
  method MergeSeries(stat: Statistic, acc: Series, results: Series) returns (merged: Series)
    ensures forall k :: Lookup(merged, k) == Add(stat, Lookup(acc, k), Lookup(results, k))
  {
    merged := acc;
    var keys := results.Keys;
    while keys != {}
      invariant keys <= results.Keys
      invariant forall k :: (Lookup(merged, k) ==
        if k in results.Keys - keys then Add(stat, Lookup(acc, k), Lookup(results, k)) else Lookup(acc, k))
      decreases keys
    {
      Witness(keys);
      var resultsKey :| resultsKey in keys;
      var result := results[resultsKey];
      merged := merged[resultsKey := Merge(stat, Lookup(merged, resultsKey), result)];
      keys := keys - {resultsKey};
    }
  }

  /** The outcome of placing the rows: an index outside the array throws. */
  function PlacedRows(results: Series): Result<seq<Option<Row>>> {
    if forall k | k in results :: -1 <= k < |results| then Ok(Rows(results)) else Err(IndexOutOfBounds)
  }

  /** Row slot i once the keys in `done` have been placed. */
  function Slot(results: Series, done: set<int>, i: int): Option<Row>
    requires done <= results.Keys
  {
    if i - 1 in done then Some(Entry(i - 1, results[i - 1])) else if i == 0 then Some(Header) else None
  }

  /** The row placement of `outputReadableCoverageResults(results, outputFile)`. */
  method PlaceRows(results: Series) returns (r: Result<seq<Option<Row>>>)
    ensures r == PlacedRows(results)
  {
    var data := new Option<Row>[|results| + 1](_ => None);
    data[0] := Some(Header);
    ghost var done: set<int> := {};
    var keys := results.Keys;
    while keys != {}
      invariant keys <= results.Keys && done == results.Keys - keys
      invariant forall k | k in done :: -1 <= k < |results|
      invariant forall i | 0 <= i < data.Length :: data[i] == Slot(results, done, i)
      decreases keys
    {
      Witness(keys);
      var key :| key in keys;
      if !(0 <= key + 1 < data.Length) {
        return Err(IndexOutOfBounds);
      }
      data[key + 1] := Some(Entry(key, results[key]));
      done := done + {key};
      keys := keys - {key};
    }
    assert done == results.Keys;
    AllPlaced(results, data[..]);
    return Ok(data[..]);
  }

  /** Once every key is placed, the slots are the rows. */
  lemma AllPlaced(results: Series, rows: seq<Option<Row>>)
    requires |rows| == |results| + 1
    requires forall i | 0 <= i < |rows| :: rows[i] == Slot(results, results.Keys, i)
    requires forall k | k in results :: -1 <= k < |results|
    ensures PlacedRows(results) == Ok(rows)
  {
    assert rows == Rows(results);
  }

  /** `Collections.max(keys)` */
  method MaxKey(keys: set<int>) returns (m: int)
    requires |keys| != 0
    ensures m == Largest(keys)
  {
    assert keys != {};
    Witness(keys);
    m :| m in keys;
    var rest := keys - {m};
    while rest != {}
      invariant rest <= keys && m in keys
      invariant forall x | x in keys - rest :: x <= m
      decreases rest
    {
      Witness(rest);
      var x :| x in rest;
      if x > m {
        m := x;
      }
      assert keys - (rest - {x}) == (keys - rest) + {x};
      rest := rest - {x};
    }
    assert keys - rest == keys;
    assert Largest(keys) <= m && m <= Largest(keys);
  }
}
