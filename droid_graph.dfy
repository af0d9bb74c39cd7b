/** The interaction graph that the coverage engine reads and updates. The graph class
    itself (DroidGraph, its vertex classes and calculateCoverage) is not part of this
    model; this module gives it the interface the engine uses: lookup of a method
    vertex by signature and of a control vertex by (owner class, id), visiting,
    adding vertices and edges, resetting visits and the coverage snapshot. */
module Graph {
  import opened Wrappers

  /** A control vertex is found by the name of its owning class and its view id. */
  datatype ControlKey = ControlKey(owner: string, id: int)

  /** The metadata of a control: id, label (`controlLabel`), parent id, text, owning class and targets. */
  datatype Control = Control(id: int, controlLabel: string, parentId: int, text: string, className: string,
                             targets: seq<string>)

  datatype Vertex = MethodVertex(signature: string) | ControlVertex(key: ControlKey)

  /** An edge; `source` is None when `addEdge` was handed a null source. */
  datatype Edge = Edge(source: Option<Vertex>, target: Vertex)

  /** `Pair<Float, Float>` of (interface coverage, method coverage), in percent. */
  datatype Snapshot = Snapshot(interfaceCoverage: real, methodCoverage: real)

  /** The value of a graph: its vertices, edges and which vertices have been visited. */
  datatype GraphState = GraphState(
    methods: set<string>,
    controls: map<ControlKey, Control>,
    edges: set<Edge>,
    visitedMethods: set<string>,
    visitedControls: set<ControlKey>)

  /** Only vertices of the graph are visited. */
  ghost predicate WellFormed(s: GraphState) {
    s.visitedMethods <= s.methods && s.visitedControls <= s.controls.Keys
  }

  function Percentage(part: nat, whole: nat): (p: real)
    ensures 0.0 <= p
    ensures part <= whole ==> p <= 100.0
  {
    if whole == 0 then 0.0
    else
      assert (part as real) * 100.0 >= 0.0;
      (part as real) * 100.0 / (whole as real)
  }

  /** The coverage snapshot: the share of control vertices and of method vertices visited. */
  function CoverageOf(s: GraphState): (c: Snapshot)
    ensures 0.0 <= c.interfaceCoverage && 0.0 <= c.methodCoverage
    ensures WellFormed(s) ==> 0.0 <= c.interfaceCoverage <= 100.0 && 0.0 <= c.methodCoverage <= 100.0
  {
    SubsetCard(s.visitedMethods, s.methods);
    SubsetCard(s.visitedControls, s.controls.Keys);
    Snapshot(Percentage(|s.visitedControls|, |s.controls|), Percentage(|s.visitedMethods|, |s.methods|))
  }

  /** `a` is at most `b` in both coverage figures. */
  predicate AtMost(a: Snapshot, b: Snapshot) {
    a.interfaceCoverage <= b.interfaceCoverage && a.methodCoverage <= b.methodCoverage
  }

  /** `t` is `s` with possibly more vertices visited and nothing else changed. */
  ghost predicate VisitedMore(s: GraphState, t: GraphState) {
    t.methods == s.methods && t.controls == s.controls && t.edges == s.edges
    && s.visitedMethods <= t.visitedMethods && s.visitedControls <= t.visitedControls
  }

  lemma {:induction false} PercentageMonotone(a: nat, b: nat, whole: nat)
    requires a <= b
    ensures Percentage(a, whole) <= Percentage(b, whole)
  {
    if whole > 0 {
      DivideMonotone((a as real) * 100.0, (b as real) * 100.0, whole as real);
    }
  }

  lemma DivideMonotone(x: real, y: real, w: real)
    requires x <= y && w > 0.0
    ensures x / w <= y / w
  {
    assert (y - x) / w >= 0.0;
    assert y / w - x / w == (y - x) / w;
  }

  /** Visiting more vertices never lowers either coverage figure. */
  lemma {:induction false} CoverageGrows(s: GraphState, t: GraphState)
    requires VisitedMore(s, t)
    ensures AtMost(CoverageOf(s), CoverageOf(t))
  {
    SubsetCard(s.visitedMethods, t.visitedMethods);
    SubsetCard(s.visitedControls, t.visitedControls);
    PercentageMonotone(|s.visitedControls|, |t.visitedControls|, |s.controls|);
    PercentageMonotone(|s.visitedMethods|, |t.visitedMethods|, |s.methods|);
  }

  lemma SubsetCard<T>(a: set<T>, b: set<T>)
    ensures a <= b ==> |a| <= |b|
  {
    if a <= b {
      assert b == a + (b - a);
    }
  }

  class DroidGraph {
    var methods: set<string>
    var controls: map<ControlKey, Control>
    var edges: set<Edge>
    var visitedMethods: set<string>
    var visitedControls: set<ControlKey>

    constructor(methods: set<string>, controls: map<ControlKey, Control>, edges: set<Edge>)
      ensures State() == GraphState(methods, controls, edges, {}, {})
    {
      this.methods, this.controls, this.edges := methods, controls, edges;
      visitedMethods, visitedControls := {}, {};
    }

    function State(): GraphState
      reads this
    {
      GraphState(methods, controls, edges, visitedMethods, visitedControls)
    }

    /** `calculateCoverage()` */
    function CalculateCoverage(): Snapshot
      reads this
    {
      CoverageOf(State())
    }

    /** `DroidGraph.getMethodVertex(signature, vertexSet) != null` */
    predicate HasMethodVertex(signature: string)
      reads this
    {
      signature in methods
    }

    /** `DroidGraph.getControlVertex(owner, id, vertexSet) != null` */
    predicate HasControlVertex(key: ControlKey)
      reads this
    {
      key in controls
    }

    /** `visit()` on a method vertex. */
    method VisitMethod(signature: string)
      requires signature in methods
      modifies this
      ensures State() == old(State()).(visitedMethods := old(visitedMethods) + {signature})
    {
      visitedMethods := visitedMethods + {signature};
    }

    /** `visit()` on a control vertex. */
    method VisitControl(key: ControlKey)
      requires key in controls
      modifies this
      ensures State() == old(State()).(visitedControls := old(visitedControls) + {key})
    {
      visitedControls := visitedControls + {key};
    }

    /** `addVertex` of a new method vertex; adding an existing vertex changes nothing. */
    method AddMethodVertex(signature: string)
      modifies this
      ensures State() == old(State()).(methods := old(methods) + {signature})
    {
      methods := methods + {signature};
    }

    /** `addVertex` of a new control vertex. */
    method AddControlVertex(key: ControlKey, control: Control)
      requires key !in controls
      modifies this
      ensures State() == old(State()).(controls := old(controls)[key := control])
    {
      controls := controls[key := control];
    }

    /** `addEdge(source, target)` */
    method AddEdge(edge: Edge)
      modifies this
      ensures State() == old(State()).(edges := old(edges) + {edge})
    {
      edges := edges + {edge};
    }

    /** `resetVisits()` */
    method ResetVisits()
      modifies this
      ensures State() == old(State()).(visitedMethods := {}, visitedControls := {})
    {
      visitedMethods, visitedControls := {}, {};
    }
  }
}
