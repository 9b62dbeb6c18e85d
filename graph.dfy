/**
 * The `KnowledgeGraph` of graph.js, without its d3 drawing: the incremental build driven by
 * timers (`buildAnimated`, `_addEdgesAnimated`), the emphasis rule of `highlightSubgraph` and
 * `resetHighlight`, and the incident-link filter of the node tooltip.
 */
module Graph {
  import opened Options

  datatype Node = Node(id: string, caption: string, nodeType: string)

  /**
   * A link end: the node id as written in the data, or the node object itself once
   * d3's link force has resolved the id.
   */
  datatype Endpoint = ById(id: string) | Resolved(node: Node)

  datatype Link = Link(source: Endpoint, target: Endpoint, caption: string)

  // ---- Progress records ----

  datatype Phase = NodesPhase | EdgesPhase

  /** The object handed to `onProgress` after each append. */
  datatype Progress = Progress(phase: Phase, nodesDone: nat, totalNodes: nat, linksDone: nat,
                               totalLinks: nat, currentEntity: string, currentType: string)

  /** The record reported after appending node number `k` (counting from 0). */
  function NodeRecord(allNodes: seq<Node>, allLinks: seq<Link>, k: nat): Progress
    requires k < |allNodes|
  {
    Progress(NodesPhase, k + 1, |allNodes|, 0, |allLinks|, allNodes[k].caption, allNodes[k].nodeType)
  }

  /** The record reported after appending link number `k` (counting from 0). */
  function LinkRecord(allNodes: seq<Node>, allLinks: seq<Link>, k: nat): Progress
    requires k < |allLinks|
  {
    Progress(EdgesPhase, |allNodes|, |allNodes|, k + 1, |allLinks|, allLinks[k].caption, "Relationship")
  }

  /** Every record reported once `n` nodes and then `l` links have been appended. */
  function BuildLog(allNodes: seq<Node>, allLinks: seq<Link>, n: nat, l: nat): seq<Progress>
    requires n <= |allNodes| && l <= |allLinks|
  {
    seq(n, k requires 0 <= k < n => NodeRecord(allNodes, allLinks, k))
    + seq(l, k requires 0 <= k < l => LinkRecord(allNodes, allLinks, k))
  }

  /** Appending one more node adds its record at the end of the node records. */
  lemma BuildLogNextNode(allNodes: seq<Node>, allLinks: seq<Link>, n: nat)
    requires n < |allNodes|
    ensures BuildLog(allNodes, allLinks, n + 1, 0)
         == BuildLog(allNodes, allLinks, n, 0) + [NodeRecord(allNodes, allLinks, n)]
  {
    var a := BuildLog(allNodes, allLinks, n + 1, 0);
    var b := BuildLog(allNodes, allLinks, n, 0) + [NodeRecord(allNodes, allLinks, n)];
    assert |a| == |b|;
    forall k | 0 <= k < |a| ensures a[k] == b[k] { }
  }

  /** Appending one more link adds its record at the very end. */
  lemma BuildLogNextLink(allNodes: seq<Node>, allLinks: seq<Link>, l: nat)
    requires l < |allLinks|
    ensures BuildLog(allNodes, allLinks, |allNodes|, l + 1)
         == BuildLog(allNodes, allLinks, |allNodes|, l) + [LinkRecord(allNodes, allLinks, l)]
  {
    var n := |allNodes|;
    var a := BuildLog(allNodes, allLinks, n, l + 1);
    var b := BuildLog(allNodes, allLinks, n, l) + [LinkRecord(allNodes, allLinks, l)];
    assert |a| == |b|;
    forall k | 0 <= k < |a| ensures a[k] == b[k] {
      if k >= n {
        assert a[k] == LinkRecord(allNodes, allLinks, k - n);
      }
    }
  }

  /**
   * The records of a whole build: one per node then one per link; the k-th node record
   * reports k+1 nodes and no links, the k-th link record all nodes and k+1 links, and no
   * node record ever follows a link record.
   */
  lemma BuildLogShape(allNodes: seq<Node>, allLinks: seq<Link>)
    ensures var log := BuildLog(allNodes, allLinks, |allNodes|, |allLinks|);
      && |log| == |allNodes| + |allLinks|
      && (forall k :: 0 <= k < |allNodes| ==>
            log[k] == Progress(NodesPhase, k + 1, |allNodes|, 0, |allLinks|, allNodes[k].caption, allNodes[k].nodeType))
      && (forall k :: 0 <= k < |allLinks| ==>
            log[|allNodes| + k]
            == Progress(EdgesPhase, |allNodes|, |allNodes|, k + 1, |allLinks|, allLinks[k].caption, "Relationship"))
      && (forall i, j :: 0 <= i < j < |log| && log[i].phase == EdgesPhase ==> log[j].phase == EdgesPhase)
  {
    var log := BuildLog(allNodes, allLinks, |allNodes|, |allLinks|);
    forall i | 0 <= i < |log| ensures log[i].phase == EdgesPhase <==> i >= |allNodes| {
      if i >= |allNodes| { assert log[i] == LinkRecord(allNodes, allLinks, i - |allNodes|); }
    }
  }

  // ---- The emphasis rule ----

  /** The id of a link end: `typeof x === "object" ? x.id : x`. */
  function EndpointId(e: Endpoint): (r: string)
    ensures e.ById? || r != "" ==> TooltipKey(e) == Some(r)
    ensures e.Resolved? && r == "" ==> TooltipKey(e) == None
  {
    match e
    case ById(id) => id
    case Resolved(n) => n.id
  }

  /** How a node is drawn: circle radius, circle and label opacity in percent, pulse ring shown. */
  datatype NodeLook = NodeLook(radius: nat, opacityPct: nat, pulsing: bool)

  /** How a link and its label are drawn: the `highlighted` class, and opacity in percent. */
  datatype LinkLook = LinkLook(highlighted: bool, opacityPct: nat)

  const EmphasisedNode := NodeLook(26, 100, true)
  const DimmedNode := NodeLook(18, 30, false)
  const PlainNode := NodeLook(22, 100, false)
  const EmphasisedLink := LinkLook(true, 100)
  const DimmedLink := LinkLook(false, 15)
  const PlainLink := LinkLook(false, 100)

  predicate LinkEmphasised(nodeIds: seq<string>, l: Link) {
    EndpointId(l.source) in nodeIds && EndpointId(l.target) in nodeIds
  }

  /** The looks `highlightSubgraph` gives the nodes: emphasised exactly when the id is listed. */
  method NodeLooks(nodes: seq<Node>, nodeIds: seq<string>) returns (looks: seq<NodeLook>)
    ensures |looks| == |nodes|
    ensures forall i :: 0 <= i < |nodes| ==> (looks[i] == EmphasisedNode <==> nodes[i].id in nodeIds)
    ensures forall i :: 0 <= i < |nodes| ==> (looks[i] == DimmedNode <==> nodes[i].id !in nodeIds)
  {
    looks := [];
    var i := 0;
    while i < |nodes|
      invariant i <= |nodes| && |looks| == i
      invariant forall j :: 0 <= j < i ==> looks[j] == if nodes[j].id in nodeIds then EmphasisedNode else DimmedNode
    {
      var isHighlighted := nodes[i].id in nodeIds;
      looks := looks + [if isHighlighted then EmphasisedNode else DimmedNode];
      i := i + 1;
    }
  }

  /** The looks `highlightSubgraph` gives the links: emphasised exactly when both ends are listed. */
  method LinkLooks(links: seq<Link>, nodeIds: seq<string>) returns (looks: seq<LinkLook>)
    ensures |looks| == |links|
    ensures forall i :: 0 <= i < |links| ==>
              (looks[i] == EmphasisedLink <==> EndpointId(links[i].source) in nodeIds && EndpointId(links[i].target) in nodeIds)
    ensures forall i :: 0 <= i < |links| ==> (looks[i] == DimmedLink <==> !LinkEmphasised(nodeIds, links[i]))
  {
    looks := [];
    var i := 0;
    while i < |links|
      invariant i <= |links| && |looks| == i
      invariant forall j :: 0 <= j < i ==> looks[j] == if LinkEmphasised(nodeIds, links[j]) then EmphasisedLink else DimmedLink
    {
      var srcId := EndpointId(links[i].source);
      var tgtId := EndpointId(links[i].target);
      looks := looks + [if srcId in nodeIds && tgtId in nodeIds then EmphasisedLink else DimmedLink];
      i := i + 1;
    }
  }

  // ---- The tooltip's incident links ----

  /**
   * `x.id || x` for a link end, compared with `===` to a node id: a string end is itself;
   * a node object with an empty id falls back to the object, which equals no id.
   */
  function TooltipKey(e: Endpoint): (r: Option<string>)
    ensures r.None? ==> e.Resolved?
    ensures r.Some? && e.Resolved? ==> r.value != ""
  {
    match e
    case ById(id) => Some(id)
    case Resolved(n) => if n.id != "" then Some(n.id) else None
  }

  predicate Incident(l: Link, id: string) {
    TooltipKey(l.source) == Some(id) || TooltipKey(l.target) == Some(id)
  }

  /** `this.links.filter(...)` in `showNodeTooltip`: the links incident to the node with `id`, in order. */
  function Connections(links: seq<Link>, id: string): (r: seq<Link>)
    ensures |r| <= |links|
    ensures forall l :: l in r <==> l in links && Incident(l, id)
  {
    if links == [] then []
    else (if Incident(links[0], id) then [links[0]] else []) + Connections(links[1..], id)
  }

  /** The filter keeps the order of the links: filtering a concatenation filters each part. */
  lemma {:induction false} ConnectionsAppend(a: seq<Link>, b: seq<Link>, id: string)
    ensures Connections(a + b, id) == Connections(a, id) + Connections(b, id)
  {
    if a == [] {
      assert a + b == b;
    } else {
      assert (a + b)[1..] == a[1..] + b;
      ConnectionsAppend(a[1..], b, id);
    }
  }

  /**
   * For a non-empty id the tooltip's test is the highlight rule's notion of an end's id;
   * an object end with an empty id is the one case where the two part.
   */
  lemma IncidentByEndpointId(l: Link, id: string)
    requires id != ""
    ensures Incident(l, id) <==> EndpointId(l.source) == id || EndpointId(l.target) == id
  {
  }

  lemma EmptyIdNotIncident()
    ensures var l := Link(Resolved(Node("", "Unnamed", "City")), ById("dr_ravi"), "located_in");
      EndpointId(l.source) == "" && !Incident(l, "")
  {
  }

  // ---- d3's resolution of link ends ----

  /** The node d3's link force maps an id to: the last node with that id (its id map keeps the last). */
  function FindById(nodes: seq<Node>, id: string): (r: Option<Node>)
    ensures r.Some? ==> r.value in nodes && r.value.id == id
    ensures r.None? <==> forall n :: n in nodes ==> n.id != id
  {
    if nodes == [] then None
    else if nodes[|nodes| - 1].id == id then Some(nodes[|nodes| - 1])
    else FindById(nodes[..|nodes| - 1], id)
  }

  /** A link end after resolution; `None` where d3 throws because no node has the id. */
  function ResolveEndpoint(e: Endpoint, nodes: seq<Node>): Option<Endpoint> {
    match e
    case Resolved(_) => Some(e)
    case ById(id) =>
      match FindById(nodes, id)
      case None => None
      case Some(n) => Some(Resolved(n))
  }

  /** Resolving a link's ends changes neither the highlight rule's verdict nor (for non-empty ids) the tooltip's. */
  lemma ResolutionKeepsRules(l: Link, nodes: seq<Node>, nodeIds: seq<string>, id: string)
    requires ResolveEndpoint(l.source, nodes).Some? && ResolveEndpoint(l.target, nodes).Some?
    ensures var r := Link(ResolveEndpoint(l.source, nodes).value, ResolveEndpoint(l.target, nodes).value, l.caption);
      && EndpointId(r.source) == EndpointId(l.source) && EndpointId(r.target) == EndpointId(l.target)
      && (LinkEmphasised(nodeIds, r) <==> LinkEmphasised(nodeIds, l))
      && (id != "" ==> (Incident(r, id) <==> Incident(l, id)))
  {
    var r := Link(ResolveEndpoint(l.source, nodes).value, ResolveEndpoint(l.target, nodes).value, l.caption);
    if id != "" {
      IncidentByEndpointId(r, id);
      IncidentByEndpointId(l, id);
    }
  }

  // ---- The graph object ----

  /** Which callback the pending `setTimeout` will run, if any. */
  datatype Timer = NoTimer | NodeTimer | EdgeTimer

  /**
   * The graph's state. `nodes`, `links`, `isBuilt` and the two highlight sets are the object's
   * fields; `allNodes`, `allLinks` and `timer` are the closure state of a build (its copies of
   * the data and the pending callback; `nodeIndex` and `linkIndex` are `|nodes|` and `|links|`);
   * `progress` and `completions` are what `onProgress` and `onComplete` have received.
   */
  class KnowledgeGraph {
    var nodes: seq<Node>
    var links: seq<Link>
    var isBuilt: bool
    var highlightedNodes: set<string>
    var highlightedEdges: set<string>
    var allNodes: seq<Node>
    var allLinks: seq<Link>
    var timer: Timer
    var progress: seq<Progress>
    var completions: nat

    /** Appends done so far, and appends a whole build makes. */
    function Done(): nat reads this { |nodes| + |links| }
    function Total(): nat reads this { |allNodes| + |allLinks| }

    /** d3 has drawn something: `render` bails out while there is no node, so before that there are no elements. */
    predicate Rendered() reads this { nodes != [] }

    ghost predicate Valid() reads this {
      && |nodes| <= |allNodes| && nodes == allNodes[..|nodes|]
      && |links| <= |allLinks| && links == allLinks[..|links|]
      && (links != [] ==> |nodes| == |allNodes|)
      && progress == BuildLog(allNodes, allLinks, |nodes|, |links|)
      && (timer == NodeTimer ==> nodes != [] && links == [] && !isBuilt)
      && (timer == EdgeTimer ==> links != [] && !isBuilt)
      && (timer == NoTimer && !isBuilt ==> nodes == [] && links == [])
      && (isBuilt ==> timer == NoTimer && nodes == allNodes && links == allLinks && completions > 0)
      && (!isBuilt ==> completions == 0)
    }

    /** `new KnowledgeGraph(...)` followed by `init()`: empty, not built. */
    constructor ()
      ensures Valid()
      ensures nodes == [] && links == [] && !isBuilt && timer == NoTimer
      ensures highlightedNodes == {} && highlightedEdges == {}
      ensures progress == [] && completions == 0
    {
      nodes := [];
      links := [];
      isBuilt := false;
      highlightedNodes := {};
      highlightedEdges := {};
      allNodes := [];
      allLinks := [];
      timer := NoTimer;
      progress := [];
      completions := 0;
    }

    /**
     * `_addEdgesAnimated` with `linkIndex == |links|`: append the next link and schedule the
     * next call, or, with every link in, mark the graph built and call `onComplete`.
     */
    method AddEdges()
      requires Valid() && !isBuilt && |nodes| == |allNodes|
      modifies this
      ensures Valid()
      ensures allNodes == old(allNodes) && allLinks == old(allLinks) && nodes == old(nodes)
      ensures highlightedNodes == old(highlightedNodes) && highlightedEdges == old(highlightedEdges)
      ensures old(|links|) < |allLinks| ==>
                links == old(links) + [allLinks[old(|links|)]] && timer == EdgeTimer && completions == 0
      ensures old(|links|) == |allLinks| ==>
                links == old(links) && isBuilt && timer == NoTimer && completions == 1
    {
      if |links| >= |allLinks| {
        isBuilt := true;
        completions := completions + 1;
        timer := NoTimer;
        return;
      }
      var link := allLinks[|links|];
      BuildLogNextLink(allNodes, allLinks, |links|);
      links := links + [link];
      progress := progress + [LinkRecord(allNodes, allLinks, |links| - 1)];
      timer := EdgeTimer;
    }

    /**
     * The `addNextNode` closure: append the next node and schedule the next call, or, with
     * every node in, go on to the links at once.
     */
    method AddNextNode()
      requires Valid() && !isBuilt && links == []
      modifies this
      ensures Valid()
      ensures allNodes == old(allNodes) && allLinks == old(allLinks)
      ensures highlightedNodes == old(highlightedNodes) && highlightedEdges == old(highlightedEdges)
      ensures old(|nodes|) < |allNodes| ==>
                nodes == old(nodes) + [allNodes[old(|nodes|)]] && links == [] && timer == NodeTimer && completions == 0
      ensures old(|nodes|) == |allNodes| && 0 < |allLinks| ==>
                nodes == old(nodes) && links == [allLinks[0]] && timer == EdgeTimer && completions == 0
      ensures old(|nodes|) == |allNodes| && |allLinks| == 0 ==>
                nodes == old(nodes) && links == [] && isBuilt && completions == 1
    {
      if |nodes| >= |allNodes| {
        AddEdges();
        return;
      }
      var node := allNodes[|nodes|];
      BuildLogNextNode(allNodes, allLinks, |nodes|);
      nodes := nodes + [node];
      progress := progress + [NodeRecord(allNodes, allLinks, |nodes| - 1)];
      timer := NodeTimer;
    }

    /**
     * `buildAnimated(onProgress, onComplete)` on copies of the node and link data, up to its
     * first timer: on a built graph only `onComplete` runs; otherwise the build starts from
     * empty lists and makes its first append (or completes at once when there is nothing to add).
     */
    method BuildAnimated(graphNodes: seq<Node>, graphLinks: seq<Link>)
      requires Valid() && timer == NoTimer
      modifies this
      ensures Valid()
      ensures highlightedNodes == old(highlightedNodes) && highlightedEdges == old(highlightedEdges)
      ensures old(isBuilt) ==>
                && isBuilt && completions == old(completions) + 1
                && nodes == old(nodes) && links == old(links) && progress == old(progress)
                && allNodes == old(allNodes) && allLinks == old(allLinks)
      ensures !old(isBuilt) ==> allNodes == graphNodes && allLinks == graphLinks
      ensures !old(isBuilt) && Total() > 0 ==> Done() == 1 && !isBuilt && timer != NoTimer
      ensures !old(isBuilt) && Total() == 0 ==> isBuilt && completions == 1
    {
      if isBuilt {
        completions := completions + 1;
        return;
      }
      allNodes := graphNodes;
      allLinks := graphLinks;
      nodes := [];
      links := [];
      progress := [];
      AddNextNode();
    }

    /**
     * The pending timer fires: the build makes its next append, in input order (all nodes
     * before any link), or, with everything appended, completes.
     */
    method Step()
      requires Valid() && timer != NoTimer
      modifies this
      ensures Valid()
      ensures allNodes == old(allNodes) && allLinks == old(allLinks)
      ensures highlightedNodes == old(highlightedNodes) && highlightedEdges == old(highlightedEdges)
      ensures old(|nodes|) < |allNodes| ==> nodes == old(nodes) + [allNodes[old(|nodes|)]] && links == old(links)
      ensures old(|nodes|) == |allNodes| ==> nodes == old(nodes)
      ensures old(|nodes|) == |allNodes| && old(|links|) < |allLinks| ==> links == old(links) + [allLinks[old(|links|)]]
      ensures old(Done()) < Total() ==> Done() == old(Done()) + 1 && !isBuilt && timer != NoTimer
      ensures isBuilt <==> old(Done()) == Total()
      ensures isBuilt ==> links == old(links) && completions == 1
    {
      match timer
      case NodeTimer => AddNextNode();
      case EdgeTimer => AddEdges();
    }

    /**
     * Every pending timer runs until none is left: the build ends with all nodes and links
     * appended in input order, one progress record per append, and `onComplete` called once.
     */
    method BuildToCompletion()
      requires Valid() && timer != NoTimer
      modifies this
      ensures Valid()
      ensures allNodes == old(allNodes) && allLinks == old(allLinks)
      ensures highlightedNodes == old(highlightedNodes) && highlightedEdges == old(highlightedEdges)
      ensures isBuilt && timer == NoTimer && nodes == allNodes && links == allLinks
      ensures progress == BuildLog(allNodes, allLinks, |allNodes|, |allLinks|)
      ensures completions == 1
    {
      while timer != NoTimer
        invariant Valid()
        invariant allNodes == old(allNodes) && allLinks == old(allLinks)
        invariant highlightedNodes == old(highlightedNodes) && highlightedEdges == old(highlightedEdges)
        invariant timer == NoTimer ==> isBuilt && completions == 1
        decreases Total() - Done() + (if timer == NoTimer then 0 else 1)
      {
        Step();
      }
    }

    /**
     * `highlightSubgraph(nodeIds, edgeLabels)`: store both lists as sets, then give every node
     * and link its look by the emphasis rule; `edgeLabels` takes no part in the looks. With
     * nothing drawn yet the d3 selections are missing and the call throws after storing the sets
     * (`ok` is false).
     */
    method HighlightSubgraph(nodeIds: seq<string>, edgeLabels: seq<string>)
      returns (ok: bool, nodeLooks: seq<NodeLook>, linkLooks: seq<LinkLook>)
      requires Valid()
      modifies this
      ensures Valid()
      ensures highlightedNodes == (set id | id in nodeIds) && highlightedEdges == (set e | e in edgeLabels)
      ensures nodes == old(nodes) && links == old(links) && isBuilt == old(isBuilt)
      ensures allNodes == old(allNodes) && allLinks == old(allLinks) && timer == old(timer)
      ensures progress == old(progress) && completions == old(completions)
      ensures ok <==> Rendered()
      ensures !ok ==> nodeLooks == [] && linkLooks == []
      ensures ok ==> |nodeLooks| == |nodes| && |linkLooks| == |links|
      ensures ok ==> forall i :: 0 <= i < |nodes| ==>
                (nodeLooks[i] == EmphasisedNode <==> nodes[i].id in nodeIds)
                && (nodeLooks[i] == DimmedNode <==> nodes[i].id !in nodeIds)
      ensures ok ==> forall i :: 0 <= i < |links| ==>
                (linkLooks[i] == EmphasisedLink <==> LinkEmphasised(nodeIds, links[i]))
                && (linkLooks[i] == DimmedLink <==> !LinkEmphasised(nodeIds, links[i]))
    {
      highlightedNodes := set id | id in nodeIds;
      highlightedEdges := set e | e in edgeLabels;
      if !Rendered() {
        return false, [], [];
      }
      nodeLooks := NodeLooks(nodes, nodeIds);
      linkLooks := LinkLooks(links, nodeIds);
      ok := true;
    }

    /**
     * `resetHighlight()`: empty both sets, then draw every node and link plainly. With nothing
     * drawn yet the call throws after emptying the sets (`ok` is false).
     */
    method ResetHighlight() returns (ok: bool, nodeLooks: seq<NodeLook>, linkLooks: seq<LinkLook>)
      requires Valid()
      modifies this
      ensures Valid()
      ensures highlightedNodes == {} && highlightedEdges == {}
      ensures nodes == old(nodes) && links == old(links) && isBuilt == old(isBuilt)
      ensures allNodes == old(allNodes) && allLinks == old(allLinks) && timer == old(timer)
      ensures progress == old(progress) && completions == old(completions)
      ensures ok <==> Rendered()
      ensures !ok ==> nodeLooks == [] && linkLooks == []
      ensures ok ==> |nodeLooks| == |nodes| && |linkLooks| == |links|
      ensures ok ==> (forall i :: 0 <= i < |nodeLooks| ==> nodeLooks[i] == PlainNode)
                     && (forall i :: 0 <= i < |linkLooks| ==> !linkLooks[i].highlighted && linkLooks[i].opacityPct == 100)
    {
      highlightedNodes := {};
      highlightedEdges := {};
      if !Rendered() {
        return false, [], [];
      }
      nodeLooks := seq(|nodes|, _ => PlainNode);
      linkLooks := seq(|links|, _ => PlainLink);
      ok := true;
    }
  }

  // ---- A concrete build ----

  /** Three nodes and two links of the demo's data, built and then highlighted. */
  method SmallBuildScenario() returns (log: seq<Progress>, linkLooks: seq<LinkLook>)
    ensures |log| == 5
    ensures log[0] == Progress(NodesPhase, 1, 3, 0, 2, "Dr. Ravi", "Doctor")
    ensures log[2] == Progress(NodesPhase, 3, 3, 0, 2, "Heart Disease", "Disease")
    ensures log[3] == Progress(EdgesPhase, 3, 3, 1, 2, "specializes_in", "Relationship")
    ensures log[4] == Progress(EdgesPhase, 3, 3, 2, 2, "treats", "Relationship")
    ensures linkLooks == [EmphasisedLink, DimmedLink]
  {
    var ns := [Node("dr_ravi", "Dr. Ravi", "Doctor"), Node("cardiology", "Cardiology", "Department"),
               Node("heart_disease", "Heart Disease", "Disease")];
    var ls := [Link(ById("dr_ravi"), ById("cardiology"), "specializes_in"),
               Link(ById("cardiology"), ById("heart_disease"), "treats")];
    var g := new KnowledgeGraph();
    g.BuildAnimated(ns, ls);
    g.BuildToCompletion();
    BuildLogShape(ns, ls);
    log := g.progress;
    var ok, nodeLooks;
    ok, nodeLooks, linkLooks := g.HighlightSubgraph(["dr_ravi", "cardiology"], ["specializes_in"]);
    assert LinkEmphasised(["dr_ravi", "cardiology"], ls[0]);
    assert !LinkEmphasised(["dr_ravi", "cardiology"], ls[1]) by {
      assert "heart_disease" != "dr_ravi" && "heart_disease" != "cardiology";
    }
  }
}
