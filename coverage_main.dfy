/** The log helpers of DroidCoverage/src/main/java/phd/research/main/Main.java: the loop of
    `createMonkeyLogs` that rewrites a raw Monkey log into a traversal log, and
    `updateGraphWithLog`, which augments the graph from a log. */
module CoverageMain {
  import opened Wrappers
  import opened JStrings
  import opened Graph
  import opened LogHandler
  import Coverage

  // ---------------------------------------------------------------- createMonkeyLogs

  /** A line of the traversal log: an interaction marker or a copied instrumentation line. */
  datatype Emitted = MarkerLine(count: nat, info: string) | CopiedLine(line: string)

  /** The text of an emitted line, without its "\n". */
  function Render(e: Emitted): string {
    match e
    case MarkerLine(n, info) => I_TAG + MarkerTail(n, info)
    case CopiedLine(line) => line
  }

  /** What follows the tag on a marker line. */
  function MarkerTail(n: nat, info: string): string {
    " Count: " + IntToString(n) + ", Info: " + info + "."
  }

  /** A raw line that records a Monkey event (an activity switch or a touch). */
  predicate IsMonkeyEvent(line: string) {
    Contains(line, Coverage.M_SWITCH) || Contains(line, Coverage.M_TOUCH)
  }

  /** The number of Monkey event lines. */
  function MonkeyEvents(lines: seq<string>): nat
    decreases |lines|
  {
    if lines == [] then 0
    else MonkeyEvents(lines[..|lines| - 1]) + (if IsMonkeyEvent(lines[|lines| - 1]) then 1 else 0)
  }

  /** What one raw line becomes when `count` markers have been written before it: a switch
      is tested first, then a touch, then the tags; any other line is dropped. */
  function Rewrite(line: string, count: nat): (r: Option<Emitted>)
    ensures (r.Some? && r.value.MarkerLine?) <==> IsMonkeyEvent(line)
    ensures r.Some? && r.value.MarkerLine? ==>
              r.value.count == count && (r.value.info == Coverage.M_SWITCH || r.value.info == Coverage.M_TOUCH)
    ensures (r.Some? && r.value.CopiedLine?) <==> !IsMonkeyEvent(line) && IsTagged(line)
    ensures r.Some? && r.value.CopiedLine? ==> r.value.line == line
  {
    if Contains(line, Coverage.M_SWITCH) then Some(MarkerLine(count, Coverage.M_SWITCH))
    else if Contains(line, Coverage.M_TOUCH) then Some(MarkerLine(count, Coverage.M_TOUCH))
    else if IsTagged(line) then Some(CopiedLine(line))
    else None
  }

  /** The lines the loop emits for `lines`, in order. */
  function Emit(lines: seq<string>): seq<Emitted>
    decreases |lines|
  {
    if lines == [] then []
    else
      var init := lines[..|lines| - 1];
      match Rewrite(lines[|lines| - 1], MonkeyEvents(init))
      case None => Emit(init)
      case Some(e) => Emit(init) + [e]
  }

  /** The texts of emitted lines. */
  function Lines(es: seq<Emitted>): (ls: seq<string>)
    ensures |ls| == |es|
    ensures forall i | 0 <= i < |es| :: ls[i] == Render(es[i])
  {
    seq(|es|, i requires 0 <= i < |es| => Render(es[i]))
  }

  /** The builder's contents: each line followed by "\n". */
  function Joined(ls: seq<string>): string
    decreases |ls|
  {
    if ls == [] then "" else Joined(ls[..|ls| - 1]) + ls[|ls| - 1] + "\n"
  }

  /** The marker counts among emitted lines, in order. */
  function Counts(es: seq<Emitted>): seq<nat>
    decreases |es|
  {
    if es == [] then []
    else Counts(es[..|es| - 1]) + (if es[|es| - 1].MarkerLine? then [es[|es| - 1].count] else [])
  }

  /** The numbers 0 to n - 1, in order. */
  function Upto(n: nat): (r: seq<nat>)
    ensures |r| == n && forall i | 0 <= i < n :: r[i] == i
  {
    seq(n, i requires 0 <= i < n => i)
  }

  /** The read loop of `createMonkeyLogs` over one log. */
  method CreateMonkeyLog(log: seq<string>) returns (text: string)
    ensures text == Joined(Lines(Emit(log)))
    ensures log == [] ==> text == ""
  {
    text := "";
    var count: nat := 0;
    ghost var emitted: seq<Emitted> := [];
    var i := 0;
    while i < |log|
      invariant 0 <= i <= |log|
      invariant count == MonkeyEvents(log[..i]) && emitted == Emit(log[..i])
      invariant text == Joined(Lines(emitted))
    {
      var line := log[i];
      ghost var next := Rewrite(line, count);
      EmitStep(log, i);
      if Contains(line, Coverage.M_SWITCH) {
        text := text + Render(MarkerLine(count, Coverage.M_SWITCH)) + "\n";
        count := count + 1;
      } else if Contains(line, Coverage.M_TOUCH) {
        text := text + Render(MarkerLine(count, Coverage.M_TOUCH)) + "\n";
        count := count + 1;
      } else if Contains(line, M_TAG) || Contains(line, C_TAG) {
        text := text + line + "\n";
      }
      if next.Some? {
        JoinedStep(emitted, next.value);
        emitted := emitted + [next.value];
      }
      i := i + 1;
    }
    assert log[..i] == log;
  }

  /** One more raw line adds its Monkey event, if any, and its rewritten line, if any. */
  lemma EmitStep(log: seq<string>, i: nat)
    requires i < |log|
    ensures MonkeyEvents(log[..i + 1]) == MonkeyEvents(log[..i]) + (if IsMonkeyEvent(log[i]) then 1 else 0)
    ensures var next := Rewrite(log[i], MonkeyEvents(log[..i]));
      Emit(log[..i + 1]) == if next.Some? then Emit(log[..i]) + [next.value] else Emit(log[..i])
  {
    assert log[..i + 1][..i] == log[..i];
  }

  /** Emitting one more line appends its text and a "\n". */
  lemma JoinedStep(es: seq<Emitted>, e: Emitted)
    ensures Joined(Lines(es + [e])) == Joined(Lines(es)) + Render(e) + "\n"
  {
    var ls := Lines(es + [e]);
    assert ls[..|ls| - 1] == Lines(es);
  }

  /** Markers are numbered 0, 1, 2, ... in output order, one per Monkey event line. */
  lemma {:induction false} MarkerCounts(lines: seq<string>)
    ensures Counts(Emit(lines)) == Upto(MonkeyEvents(lines))
    decreases |lines|
  {
    if lines != [] {
      var init := lines[..|lines| - 1];
      MarkerCounts(init);
      var es := Emit(init);
      match Rewrite(lines[|lines| - 1], MonkeyEvents(init))
      case None =>
      case Some(e) =>
        assert (es + [e])[..|es|] == es;
    }
  }

  /** The part of a marker line after its tag holds no '<'. */
  lemma MarkerTailPlain(n: nat, info: string)
    requires info == Coverage.M_SWITCH || info == Coverage.M_TOUCH
    ensures '<' !in MarkerTail(n, info)
  {
    var digits := IntToString(n);
    forall i | 0 <= i < |digits| ensures digits[i] != '<' {
    }
  }

  /** A line that opens with a '<' not followed by the tag's second character, and holds
      no other '<', does not contain the tag. */
  lemma TagAbsent(head: string, tail: string, tag: string)
    requires 2 <= |tag| && tag[0] == '<' && 2 <= |head| && head[1] != tag[1]
    requires '<' !in head[1..] && '<' !in tail
    ensures !Contains(head + tail, tag)
  {
    var line := head + tail;
    forall i | 0 <= i <= |line| - |tag| ensures !MatchAt(line, tag, i) {
      if i == 0 {
        assert line[1] == head[1];
        Mismatch(line, tag, 0, 1);
      } else {
        if i < |head| {
          assert line[i] == head[1..][i - 1];
        } else {
          assert line[i] == tail[i - |head|];
        }
        Mismatch(line, tag, i, 0);
      }
    }
  }

  /** A marker line holds the interaction tag and, with the Monkey texts as its info,
      neither the method nor the control tag: its only '<' is its first character. */
  lemma MarkerLineShape(n: nat, info: string)
    requires info == Coverage.M_SWITCH || info == Coverage.M_TOUCH
    ensures IsMarker(Render(MarkerLine(n, info))) && !IsTagged(Render(MarkerLine(n, info)))
  {
    var tail := MarkerTail(n, info);
    var line := I_TAG + tail;
    assert line[..|I_TAG|] == I_TAG;
    assert MatchAt(line, I_TAG, 0);
    MarkerTailPlain(n, info);
    assert '<' !in I_TAG[1..];
    TagAbsent(I_TAG, tail, M_TAG);
    TagAbsent(I_TAG, tail, C_TAG);
  }

  /** Read back by the coverage recorder, a rewritten log of a raw log without interaction
      tags has one marker per Monkey event, and every marker is exactly one event. */
  lemma {:induction false} RewrittenMarkers(lines: seq<string>)
    requires forall i | 0 <= i < |lines| :: !IsMarker(lines[i])
    ensures Coverage.MarkerCount(Lines(Emit(lines))) == MonkeyEvents(lines)
    ensures forall i | 0 <= i < |Emit(lines)| ::
              IsMarker(Lines(Emit(lines))[i]) <==> Emit(lines)[i].MarkerLine?
    decreases |lines|
  {
    if lines != [] {
      var init, line := lines[..|lines| - 1], lines[|lines| - 1];
      forall i | 0 <= i < |init| ensures !IsMarker(init[i]) {
        assert init[i] == lines[i];
      }
      RewrittenMarkers(init);
      var es := Emit(init);
      match Rewrite(line, MonkeyEvents(init))
      case None =>
      case Some(e) =>
        var all := Lines(es + [e]);
        assert all[..|all| - 1] == Lines(es);
        if e.MarkerLine? {
          MarkerLineShape(e.count, e.info);
        }
        assert IsMarker(all[|all| - 1]) <==> e.MarkerLine?;
    }
  }

  /** So the series recorded from a rewritten log has one entry per Monkey event plus the final one. */
  lemma RewrittenSeriesSize(start: GraphState, scene: Scene, lines: seq<string>)
    requires forall i | 0 <= i < |lines| :: !IsMarker(lines[i])
    requires Coverage.RecordedSeries(start, scene, Lines(Emit(lines))).Ok?
    ensures |Coverage.RecordedSeries(start, scene, Lines(Emit(lines))).value| == MonkeyEvents(lines) + 1
  {
    RewrittenMarkers(lines);
    Coverage.SeriesSize(start, scene, Lines(Emit(lines)));
  }

  // ---------------------------------------------------------------- updateGraphWithLog

  /** The graph and the exception that ended the loop, if any. */
  datatype Outcome = Outcome(graph: GraphState, failure: Option<Exception>)

  /** One line of `updateGraphWithLog`: `updateGraph` on a method or control line, then
      `updateGraphEdges` on a control line. */
  function AugmentLine(s: GraphState, scene: Scene, line: string): Outcome {
    if !IsTagged(line) then Outcome(s, None)
    else
      match ApplyLine(AddVertices, s, scene, line)
      case Err(e) => Outcome(s, Some(e))
      case Ok(t) =>
        if !Contains(line, C_TAG) then Outcome(t, None)
        else
          match ApplyLine(AddEdge, t, scene, line)
          case Err(e) => Outcome(t, Some(e))
          case Ok(u) => Outcome(u, None)
  }

  /** The loop of `updateGraphWithLog`; an exception ends it. */
  function Augment(start: GraphState, scene: Scene, lines: seq<string>): Outcome
    decreases |lines|
  {
    if lines == [] then Outcome(start, None)
    else
      var o := Augment(start, scene, lines[..|lines| - 1]);
      if o.failure.Some? then o else AugmentLine(o.graph, scene, lines[|lines| - 1])
  }

  /** `updateGraphWithLog(log, droidGraph)`: the exceptions of the parser escape it. */
  method UpdateGraphWithLog(log: seq<string>, scene: Scene, g: DroidGraph) returns (r: Result<()>)
    modifies g
    ensures var o := Augment(old(g.State()), scene, log);
      g.State() == o.graph && (r.Err? <==> o.failure.Some?) && (r.Err? ==> r.error == o.failure.value)
  {
    ghost var start := g.State();
    var i := 0;
    while i < |log|
      invariant 0 <= i <= |log|
      invariant Augment(start, scene, log[..i]) == Outcome(g.State(), None)
    {
      var line := log[i];
      assert log[..i + 1][..i] == log[..i];
      if Contains(line, M_TAG) || Contains(line, C_TAG) {
        var res := UpdateGraph(line, scene, g);
        if res.Err? {
          AugmentFailureSticks(start, scene, log, i + 1);
          return Err(res.error);
        }
      }
      if Contains(line, C_TAG) {
        // the line has just been parsed without an exception, so this parse succeeds too
        var _ := UpdateGraphEdges(line, scene, g);
      }
      i := i + 1;
    }
    assert log[..i] == log;
    return Ok(());
  }

  /** Once the loop has failed, the remaining lines change nothing. */
  lemma {:induction false} AugmentFailureSticks(start: GraphState, scene: Scene, lines: seq<string>, q: nat)
    requires q <= |lines| && Augment(start, scene, lines[..q]).failure.Some?
    ensures Augment(start, scene, lines) == Augment(start, scene, lines[..q])
    decreases |lines| - q
  {
    if q < |lines| {
      var longer := lines[..q + 1];
      assert longer[..q] == lines[..q];
      AugmentFailureSticks(start, scene, lines, q + 1);
    } else {
      assert lines[..q] == lines;
    }
  }

  /** `t` is `s` with possibly more vertices and edges, and nothing already there changed. */
  ghost predicate Grown(s: GraphState, t: GraphState) {
    s.methods <= t.methods && s.controls.Keys <= t.controls.Keys
    && (forall k | k in s.controls :: t.controls[k] == s.controls[k])
    && s.edges <= t.edges
    && t.visitedMethods == s.visitedMethods && t.visitedControls == s.visitedControls
  }

  /** Every edge a line adds has a control vertex as its source: the control vertex was
      added by `updateGraph` on the same line just before. */
  lemma AugmentLineEdges(s: GraphState, scene: Scene, line: string)
    ensures Grown(s, AugmentLine(s, scene, line).graph)
    ensures forall e | e in AugmentLine(s, scene, line).graph.edges - s.edges :: e.source.Some?
  {
    var r := RegexLogMessage(line, scene);
    if IsTagged(line) && r.Ok? && r.value.Some? {
      EdgeAfterVertices(s, r.value.value);
    }
  }

  /** Along the whole log the graph only grows, and no edge without a source is added. */
  lemma {:induction false} AugmentEdges(start: GraphState, scene: Scene, lines: seq<string>)
    ensures Grown(start, Augment(start, scene, lines).graph)
    ensures forall e | e in Augment(start, scene, lines).graph.edges - start.edges :: e.source.Some?
    decreases |lines|
  {
    if lines != [] {
      var init := lines[..|lines| - 1];
      AugmentEdges(start, scene, init);
      var o := Augment(start, scene, init);
      if o.failure.None? {
        AugmentLineEdges(o.graph, scene, lines[|lines| - 1]);
      }
    }
  }

  /** After a successful pass every method named by a parsed line has a vertex, and so has
      every control named by a parsed control line. */
  lemma {:induction false} AugmentAddsVertices(start: GraphState, scene: Scene, lines: seq<string>, i: nat)
    requires i < |lines| && Augment(start, scene, lines).failure.None?
    requires IsTagged(lines[i]) && RegexLogMessage(lines[i], scene).Ok? && RegexLogMessage(lines[i], scene).value.Some?
    ensures var d := RegexLogMessage(lines[i], scene).value.value;
      Signature(d.sootMethod) in Augment(start, scene, lines).graph.methods
      && (d.id != -1 ==> KeyOf(d) in Augment(start, scene, lines).graph.controls)
    decreases |lines|
  {
    var init := lines[..|lines| - 1];
    var o := Augment(start, scene, init);
    assert o.failure.None?;
    if i == |lines| - 1 {
      AugmentLineEdges(o.graph, scene, lines[i]);
    } else {
      assert init[i] == lines[i];
      AugmentAddsVertices(start, scene, init, i);
      AugmentLineEdges(o.graph, scene, lines[|lines| - 1]);
    }
  }
}
