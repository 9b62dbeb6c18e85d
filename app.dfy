/**
 * The module state of app.js and the handlers that guard it: `processFile` runs once,
 * `handleQuery` runs at most one pipeline at a time, and the pipeline it starts ends by
 * highlighting the chosen query's subgraph and releasing the guard.
 */
module App {
  import opened Options
  import opened JsString
  import opened FileSize
  import opened QueryRouter
  import opened Graph

  /** What `handleQuery` puts in an empty input box. */
  const DefaultQuestion: string := "Which doctor treats heart problems in Chennai?"

  /** The number of mock chunks the file summary reports. */
  const ChunkCount: nat := 7

  /**
   * How a call of `handleQuery` ends: ignored by the guard, default question filled in,
   * pipeline started for a sample, or a TypeError thrown out of `graph.resetHighlight()`
   * (nothing drawn yet) after the sample was chosen.
   */
  datatype QueryOutcome = Ignored | FilledDefault | Started(query: nat) | Threw(query: nat)

  class AppState {
    const graph: KnowledgeGraph
    /** `SAMPLE_QUERIES`. */
    const samples: seq<SampleQuery>
    var documentUploaded: bool
    var pipelineRunning: bool
    /** The pipeline's chain of timers is running (it ends by clearing `pipelineRunning`). */
    var pipelineScheduled: bool
    var queryInput: string
    /** `currentQueryData`, as an index into `samples`. */
    var currentQuery: Option<nat>
    /** The file summary line once the upload animation has finished. */
    var fileSummary: Option<string>

    ghost predicate Valid() reads this, graph {
      && graph.Valid()
      && |samples| > 0
      && (currentQuery.Some? ==> currentQuery.value < |samples|)
      && (pipelineScheduled ==> pipelineRunning && currentQuery.Some? && graph.Rendered())
    }

    /** The guard is set but no pipeline will ever clear it. */
    predicate Stuck() reads this {
      pipelineRunning && !pipelineScheduled
    }

    constructor (sampleQueries: seq<SampleQuery>)
      requires |sampleQueries| > 0
      ensures Valid() && fresh(graph) && samples == sampleQueries
      ensures !documentUploaded && !pipelineRunning && !pipelineScheduled
      ensures queryInput == "" && currentQuery == None && fileSummary == None
      ensures graph.nodes == [] && !graph.isBuilt && graph.timer == NoTimer
    {
      graph := new KnowledgeGraph();
      samples := sampleQueries;
      documentUploaded := false;
      pipelineRunning := false;
      pipelineScheduled := false;
      queryInput := "";
      currentQuery := None;
      fileSummary := None;
    }

    /**
     * `processFile(file)` with its timers run: only the first call does anything; it marks the
     * document uploaded and shows the size summary.
     */
    method ProcessFile(size: nat) returns (accepted: bool)
      requires Valid()
      modifies this
      ensures Valid()
      ensures accepted <==> !old(documentUploaded)
      ensures documentUploaded
      ensures accepted ==> fileSummary == Some(FormatFileSize(size) + " · " + NatToString(ChunkCount) + " chunks extracted")
      ensures !accepted ==> fileSummary == old(fileSummary)
      ensures pipelineRunning == old(pipelineRunning) && pipelineScheduled == old(pipelineScheduled)
      ensures queryInput == old(queryInput) && currentQuery == old(currentQuery)
    {
      if documentUploaded {
        return false;
      }
      documentUploaded := true;
      var sizeStr := FormatFileSize(size);
      fileSummary := Some(sizeStr + " · " + NatToString(ChunkCount) + " chunks extracted");
      accepted := true;
    }

    /** `startGraphBuild()`, reached from the upload's last timer: start the animated build. */
    method StartGraphBuild(graphNodes: seq<Node>, graphLinks: seq<Link>)
      requires Valid() && documentUploaded && graph.timer == NoTimer
      modifies graph
      ensures Valid()
      ensures !old(graph.isBuilt) ==> graph.allNodes == graphNodes && graph.allLinks == graphLinks
      ensures !old(graph.isBuilt) && |graphNodes| + |graphLinks| > 0 ==> graph.Done() == 1 && graph.timer != NoTimer
      ensures old(Rendered()) ==> graph.Rendered()
      ensures graph.highlightedNodes == old(graph.highlightedNodes) && graph.highlightedEdges == old(graph.highlightedEdges)
      ensures old(graph.isBuilt) ==>
                && graph.isBuilt && graph.completions == old(graph.completions) + 1
                && graph.nodes == old(graph.nodes) && graph.links == old(graph.links) && graph.progress == old(graph.progress)
                && graph.allNodes == old(graph.allNodes) && graph.allLinks == old(graph.allLinks)
      ensures !old(graph.isBuilt) && |graphNodes| + |graphLinks| == 0 ==> graph.isBuilt && graph.completions == 1
    {
      graph.BuildAnimated(graphNodes, graphLinks);
    }

    predicate Rendered() reads this, graph { graph.Rendered() }

    /**
     * `handleQuery()` as written: the guard, the empty-input case, the routing, then
     * `pipelineRunning = true` BEFORE `graph.resetHighlight()`, which throws when nothing is drawn.
     */
    method HandleQuery() returns (outcome: QueryOutcome)
      requires Valid()
      modifies this, graph
      ensures Valid()
      ensures graph.nodes == old(graph.nodes) && graph.links == old(graph.links)
      ensures graph.timer == old(graph.timer) && graph.isBuilt == old(graph.isBuilt)
      ensures graph.allNodes == old(graph.allNodes) && graph.allLinks == old(graph.allLinks)
      ensures graph.progress == old(graph.progress) && graph.completions == old(graph.completions)
      ensures old(pipelineRunning) || AllWhiteSpace(old(queryInput)) ==>
                graph.highlightedNodes == old(graph.highlightedNodes) && graph.highlightedEdges == old(graph.highlightedEdges)
      ensures !old(pipelineRunning) && !AllWhiteSpace(old(queryInput)) ==>
                graph.highlightedNodes == {} && graph.highlightedEdges == {}
      ensures documentUploaded == old(documentUploaded) && fileSummary == old(fileSummary)
      ensures old(pipelineRunning) ==> outcome == Ignored && pipelineRunning && pipelineScheduled == old(pipelineScheduled)
                                       && queryInput == old(queryInput) && currentQuery == old(currentQuery)
      ensures !old(pipelineRunning) && AllWhiteSpace(old(queryInput)) ==>
                outcome == FilledDefault && queryInput == DefaultQuestion && !pipelineRunning && !pipelineScheduled
                && currentQuery == old(currentQuery)
      ensures !old(pipelineRunning) && !AllWhiteSpace(old(queryInput)) ==>
                && currentQuery == Some(Route(Trim(old(queryInput)), samples))
                && queryInput == old(queryInput)
                && pipelineRunning
                && (Rendered() ==> outcome == Started(currentQuery.value) && pipelineScheduled)
                && (!Rendered() ==> outcome == Threw(currentQuery.value) && !pipelineScheduled)
      ensures old(Stuck()) ==> Stuck()
    {
      if pipelineRunning {
        return Ignored;
      }
      var question := Trim(queryInput);
      TrimEmpty(queryInput);
      if question == [] {
        queryInput := DefaultQuestion;
        return FilledDefault;
      }
      var q := Route(question, samples);
      currentQuery := Some(q);
      pipelineRunning := true;
      var ok, _, _ := graph.ResetHighlight();
      if !ok {
        return Threw(q);
      }
      pipelineScheduled := true;
      outcome := Started(q);
    }

    /**
     * `handleQuery()` with the highlight reset moved in front of `pipelineRunning = true`:
     * when the reset throws the guard is still clear, so the guard is set only when a
     * pipeline starts that will clear it.
     */
    method HandleQueryFixed() returns (outcome: QueryOutcome)
      requires Valid()
      modifies this, graph
      ensures Valid()
      ensures graph.nodes == old(graph.nodes) && graph.links == old(graph.links)
      ensures graph.timer == old(graph.timer) && graph.isBuilt == old(graph.isBuilt)
      ensures graph.allNodes == old(graph.allNodes) && graph.allLinks == old(graph.allLinks)
      ensures graph.progress == old(graph.progress) && graph.completions == old(graph.completions)
      ensures old(pipelineRunning) || AllWhiteSpace(old(queryInput)) ==>
                graph.highlightedNodes == old(graph.highlightedNodes) && graph.highlightedEdges == old(graph.highlightedEdges)
      ensures !old(pipelineRunning) && !AllWhiteSpace(old(queryInput)) ==>
                graph.highlightedNodes == {} && graph.highlightedEdges == {}
      ensures documentUploaded == old(documentUploaded) && fileSummary == old(fileSummary)
      ensures old(pipelineRunning) ==> outcome == Ignored && pipelineRunning && pipelineScheduled == old(pipelineScheduled)
                                       && queryInput == old(queryInput) && currentQuery == old(currentQuery)
      ensures !old(pipelineRunning) && AllWhiteSpace(old(queryInput)) ==>
                outcome == FilledDefault && queryInput == DefaultQuestion && !pipelineRunning && !pipelineScheduled
                && currentQuery == old(currentQuery)
      ensures !old(pipelineRunning) && !AllWhiteSpace(old(queryInput)) ==>
                && currentQuery == Some(Route(Trim(old(queryInput)), samples))
                && queryInput == old(queryInput)
                && (Rendered() ==> outcome == Started(currentQuery.value) && pipelineRunning && pipelineScheduled)
                && (!Rendered() ==> outcome == Threw(currentQuery.value) && !pipelineRunning && !pipelineScheduled)
      ensures !old(Stuck()) ==> !Stuck()
    {
      if pipelineRunning {
        return Ignored;
      }
      var question := Trim(queryInput);
      TrimEmpty(queryInput);
      if question == [] {
        queryInput := DefaultQuestion;
        return FilledDefault;
      }
      var q := Route(question, samples);
      currentQuery := Some(q);
      var ok, _, _ := graph.ResetHighlight();
      if !ok {
        return Threw(q);
      }
      pipelineRunning := true;
      pipelineScheduled := true;
      outcome := Started(q);
    }

    /**
     * The pipeline's timers (`runPipelineStep` 1 to 7): step 4 highlights the chosen query's
     * nodes and edges, and step 7 clears `pipelineRunning`.
     */
    method RunPipeline()
      requires Valid() && pipelineScheduled
      modifies this, graph
      ensures Valid()
      ensures !pipelineRunning && !pipelineScheduled
      ensures currentQuery == old(currentQuery)
      ensures graph.highlightedNodes == (set id | id in samples[currentQuery.value].highlightNodes)
      ensures graph.highlightedEdges == (set e | e in samples[currentQuery.value].highlightEdges)
      ensures graph.nodes == old(graph.nodes) && graph.links == old(graph.links)
      ensures graph.timer == old(graph.timer) && graph.isBuilt == old(graph.isBuilt)
      ensures graph.allNodes == old(graph.allNodes) && graph.allLinks == old(graph.allLinks)
      ensures graph.progress == old(graph.progress) && graph.completions == old(graph.completions)
      ensures documentUploaded == old(documentUploaded) && queryInput == old(queryInput)
      ensures fileSummary == old(fileSummary)
    {
      var data := samples[currentQuery.value];
      var ok, _, _ := graph.HighlightSubgraph(data.highlightNodes, data.highlightEdges);
      pipelineScheduled := false;
      pipelineRunning := false;
    }
  }

  // ---- A query asked before any upload ----

  const DrRavi := Node("dr_ravi", "Dr. Ravi", "Doctor")

  /**
   * As written: for any non-blank question and any sample list, a query before the upload
   * throws with the guard set, and after the upload and the start of the build (the first
   * node is drawn) the next query is still ignored.
   */
  method QueryBeforeUploadLocksOut(question: string, samples: seq<SampleQuery>, size: nat)
    returns (first: QueryOutcome, second: QueryOutcome)
    requires |samples| > 0 && !AllWhiteSpace(question)
    ensures first.Threw? && second == Ignored
  {
    var app := new AppState(samples);
    app.queryInput := question;
    first := app.HandleQuery();
    assert app.Stuck();
    var accepted := app.ProcessFile(size);
    app.StartGraphBuild([DrRavi], []);
    assert app.Rendered();
    app.queryInput := question;
    second := app.HandleQuery();
  }

  /**
   * Corrected: the same sequence leaves the guard clear after the first query, so the
   * query after the build has started runs the pipeline.
   */
  method QueryBeforeUploadRecoversWhenFixed(question: string, samples: seq<SampleQuery>, size: nat)
    returns (first: QueryOutcome, second: QueryOutcome)
    requires |samples| > 0 && !AllWhiteSpace(question)
    ensures first.Threw? && second.Started?
  {
    var app := new AppState(samples);
    app.queryInput := question;
    first := app.HandleQueryFixed();
    assert !app.pipelineRunning;
    var accepted := app.ProcessFile(size);
    app.StartGraphBuild([DrRavi], []);
    assert app.Rendered();
    app.queryInput := question;
    second := app.HandleQueryFixed();
  }
}
