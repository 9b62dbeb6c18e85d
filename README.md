# Graph-RAG demo: a verified model of its core

The Graph-RAG demo is a browser page with several parts:

- an uploaded document is "chunked";
- a knowledge graph of doctors, departments, diseases and cities is built on screen one node and one link at a time;
- a typed question is routed to one of the canned sample queries;
- a seven-step pipeline is animated, which highlights the sub-graph the query touches and types the answer out with its `**bold**` parts;
- a presentation mode walks through six slides.

This project models the logic under that page in Dafny and proves what it promises:

- **Graph** (graph.js):
  - the incremental build (`buildAnimated`, `_addEdgesAnimated`), as a class whose pending timer is explicit state;
  - the progress records it reports;
  - the emphasis rule of `highlightSubgraph` and `resetHighlight`;
  - the incident-link filter of the node tooltip;
  - how d3's link force resolving ids into node objects interacts with both rules.
- **Markdown** (app.js):
  - `parseMarkdown`, which is the `/\*\*(.*?)\*\*/g` loop. It is proved equal to a recursive segment function, and that function is proved to round-trip (putting the `**` back gives the input) and to produce canonical segments.
  - `buildPartialHtml`, proved against a truncation function whose plain text is the first `charCount` characters of the answer;
  - the typewriter's stopping length.
- **FileSize** (app.js): `formatFileSize`, with `toFixed(1)` written out as rounding to the nearest tenth, halves up.
- **QueryRouter** (app.js): the keyword routing of `handleQuery`.
- **App** (app.js): the module flags `documentUploaded` and `pipelineRunning`, the one-shot guard of `processFile`, the guards of `handleQuery` and the pipeline that clears them.
- **Presentation** (presentation.js): the slide cursor, `isActive`, the dot indicator, the counter, the previous button's visibility and the next button's label, under open, close, next, previous, dot clicks and the keyboard.
- **JsString**: the JavaScript string operations the core uses (`trim`, `toLowerCase`, `includes`, decimal text of a number).

## Model

| member | source | states |
|---|---|---|
| JsString.Trim | app.js:263 | the trimmed question is no longer than the input |
| JsString.TrimShape | app.js:263 | `trim()` returns a slice of the input with white space only before and after it, and with non-white-space ends; the result is empty exactly when the input is all white space (the `!question` test) |
| JsString.TrimEmpty | app.js:263-264 | the trimmed question is empty exactly when the input box holds only white space |
| JsString.LeadingSpaceSpan | app.js:263 | the leading run `trim()` removes is all white space and stops at the first other character |
| JsString.TrailingSpaceSpan | app.js:263 | the mirror of the above at the end of the text |
| JsString.ToLower | app.js:270 | lower-casing keeps the length and maps each character on its own, leaving no upper-case ASCII letter |
| JsString.ToLowerIdempotent | app.js:270 | lower-casing twice is lower-casing once |
| JsString.ContainsAt | app.js:271-278 | `includes` holds exactly when the word occurs at some position |
| JsString.NatToString | app.js:145 | the decimal text of a number is non-empty, holds only digits and has no leading zero |
| JsString.NatToStringRoundTrip | app.js:145 | reading the decimal text back gives the number |
| JsString.NatToStringInjective | presentation.js:85 | different numbers have different decimal texts |
| Markdown.CloseFrom | app.js:399 | the lazy `(.*?)\*\*` tail ends on a `**` with no line terminator before it |
| Markdown.CloseFromFirst | app.js:399 | the lazy group stops at the first `**` after the opening pair |
| Markdown.NextMatch | app.js:403 | `exec` from `lastIndex` finds a match at or after it, opening and closing with `**` inside the text |
| Markdown.NextMatchLeftmost | app.js:403 | no match starts between `lastIndex` and the match found, and none after `lastIndex` when nothing is found |
| Markdown.MatchDelimiters | app.js:399 | a match is `**`, its inner text, `**` |
| Markdown.SegmentsEmpty | app.js:403-412 | the segments of `text[from..]`: there are none exactly when no text is left |
| Markdown.SegmentsAtMatch | app.js:403-408 | one turn of the loop: the plain text before the match, the bold inner text, then the segments after the match |
| Markdown.SegmentsAtEnd | app.js:410-412 | after the last match, the rest of the text, if any, is one plain segment |
| Markdown.SegmentsStep | app.js:403-409 | the loop invariant (segments pushed so far + segments of the rest = all segments) survives one turn |
| Markdown.ParseMarkdown | app.js:397-414 | the regex loop returns exactly the segments of the whole text |
| Markdown.MarkupAppend | app.js:397-414 | the marked-up text of a concatenation is the concatenation of marked-up texts |
| Markdown.PlainTextAppend | app.js:397-414 | the same for the text without markup |
| Markdown.MarkupOfSegments | app.js:397-414 | round trip: putting `**` back around the bold segments gives the input text again |
| Markdown.MarkupBefore | app.js:404-406 | the plain segment before a match marks up to the text before it |
| Markdown.MarkupAroundMatch | app.js:403-408 | text before a match, the `**`-wrapped inner text and a rest that marks up to the text after the match together give the whole text |
| Markdown.TextAroundMatch | app.js:399 | a text with a match splits into before, `**`, inner, `**`, after |
| Markdown.CanonicalConcat | app.js:397-414 | canonical segment lists stay canonical when joined without putting two plain segments together |
| Markdown.CloseFromSlice | app.js:399 | the lazy tail seen inside a slice is the lazy tail of the whole text, shifted |
| Markdown.MatchAtSlice | app.js:399 | a match inside a slice is a match of the whole text |
| Markdown.NoMatchInSlice | app.js:403 | a stretch in which no match starts holds no match of its own |
| Markdown.LazyInnerOfMatch | app.js:399 | a bold segment has no line terminator, and no `**` starts inside it |
| Markdown.CanonicalBefore | app.js:404-406 | the plain text before the leftmost match holds no match |
| Markdown.CanonicalBold | app.js:407 | the bold segment of a match is a lazy capture |
| Markdown.CanonicalAtEnd | app.js:410-412 | the final plain segment is non-empty and holds no match |
| Markdown.CanonicalAtMatch | app.js:403-409 | a turn of the loop keeps the segment list canonical |
| Markdown.SegmentsCanonical | app.js:397-414 | what `parseMarkdown` returns is canonical: plain segments are non-empty, hold no match and are never adjacent, and every bold segment is the shortest lazy capture |
| Markdown.Truncate | app.js:420-425 | the pieces `buildPartialHtml` emits are never more than the segments |
| Markdown.Html | app.js:424 | the HTML of the pieces is at least as long as their text |
| Markdown.HtmlWithoutBold | app.js:424 | pieces with no bold part are rendered as their bare text |
| Markdown.HtmlTruncateUnfold | app.js:420-425 | one turn of `buildPartialHtml`: the first segment cut to what remains, then the rest with that much less remaining |
| Markdown.BuildStep | app.js:420-425 | the loop invariant of `buildPartialHtml` survives one turn |
| Markdown.BuildPartialHtml | app.js:416-427 | the `for … of` loop returns the HTML of the segments truncated to `charCount` characters, with bold pieces in `<strong>` |
| Markdown.TruncatePlainText | app.js:416-427 | the text shown is exactly the first `charCount` characters of the segments' text, and nothing when `charCount <= 0` |
| Markdown.TruncatePieces | app.js:420-425 | there are at most as many pieces as segments, in order, each a prefix of its segment with the same boldness, and all but the last whole |
| Markdown.TruncateBeyondEnd | app.js:416-427 | a count beyond the text's length shows every segment whole |
| Markdown.RemoveDelimiters | app.js:377 | removing every `**` never lengthens the text |
| Markdown.RemoveDelimitersLeavesNone | app.js:377 | the replacement is global: no `**` is left in its result |
| Markdown.RemoveDelimitersKeepsOthers | app.js:377 | only `*` characters are removed: every other character is kept, in order |
| Markdown.RemoveDelimitersUnchanged | app.js:377 | a text holding no `**` comes back unchanged |
| Markdown.StrayDelimiterCutsAnswer | app.js:377-392 | as written, the answer "a\*\*b" parses to one plain segment "a\*\*b", yet the typewriter stops after "a\*" |
| Markdown.TypedTextCorrectedIsWholeAnswer | app.js:377-392 | when it counts the segments' characters, the typewriter's last frame shows the whole answer without markup |
| FileSize.FormatFileSize | app.js:144-148 | the text always ends in one of the units " B", " KB" or " MB" |
| FileSize.Tenths | app.js:146-147 | `toFixed(1)` of `bytes / unit` is the nearest number of tenths, halves up |
| FileSize.OneDecimal | app.js:146-147 | the text has exactly one digit after the decimal point |
| FileSize.UnitSelection | app.js:144-148 | the unit is "B" exactly below 1024 bytes, "KB" exactly from 1024 up to 1048576, and "MB" from there on |
| FileSize.WholeBytes | app.js:145 | below 1024 bytes the text is the decimal digits of the count, then " B" |
| FileSize.OneDecimalReadBack | app.js:146-147 | reading back the whole part and the decimal of the text gives the number of tenths |
| FileSize.ScaledBytes | app.js:146-147 | from 1024 bytes on, the text is the size in the chosen unit, rounded to the nearest tenth, then the unit |
| FileSize.SmallFileExample | app.js:145 | 512 bytes are "512 B" |
| FileSize.KilobyteExample | app.js:146 | 1536 bytes are "1.5 KB" |
| FileSize.JustBelowMegabyteExample | app.js:146 | 1048575 bytes are "1024.0 KB": the unit is chosen before rounding |
| FileSize.MegabyteExample | app.js:147 | 2097152 bytes are "2.0 MB" |
| QueryRouter.KeyFor | app.js:273-277 | a key word found is the key of a group whose words the question mentions |
| QueryRouter.KeyForFirstGroup | app.js:272-276 | a key word is found exactly when some keyword group is mentioned, and it is the key of the first group mentioned |
| QueryRouter.FirstWith | app.js:271-278 | `find` returns the first sample whose lower-cased question contains the key word, or nothing if there is none |
| QueryRouter.Route | app.js:271-278 | the chosen sample is one of the samples |
| QueryRouter.RouteChoice | app.js:270-278 | routing picks the first sample holding the key word of the first group the question mentions, and falls back to the first sample otherwise |
| QueryRouter.RouteIgnoresCase | app.js:270 | upper and lower case in the question make no difference |
| Graph.BuildLogNextNode | graph.js:106-116 | appending one more node adds its progress record after the node records |
| Graph.BuildLogNextLink | graph.js:140-150 | appending one more link adds its record at the very end |
| Graph.BuildLogShape | graph.js:94-157 | a whole build reports one record per node, then one per link, with the counts, captions and types of each; no node record follows a link record |
| Graph.NodeLooks | graph.js:387-407 | a node is emphasised (radius 26, opaque, pulsing) exactly when its id is listed, and dimmed (radius 18, 30%) exactly when it is not |
| Graph.LinkLooks | graph.js:410-436 | a link is highlighted and opaque exactly when both of its ends' ids are listed, and dimmed to 15% otherwise |
| Graph.EndpointId | graph.js:412-413 | the highlight rule's id of a link end is the tooltip's key for it, except for a node object whose id is empty, where the tooltip falls back to the object itself |
| Graph.TooltipKey | graph.js:328 | `x.id \|\| x` falls back to the object only for a node object, and a node object's key is never the empty id |
| Graph.Connections | graph.js:326-329 | the tooltip lists exactly the links incident to the node, and no more links than there are |
| Graph.ConnectionsAppend | graph.js:326-329 | the filter keeps the links' order |
| Graph.IncidentByEndpointId | graph.js:326-329 | for a non-empty id, the tooltip's `(x.id \|\| x) === id` test agrees with the highlight rule's reading of an end's id |
| Graph.EmptyIdNotIncident | graph.js:326-329 | a node object with an empty id is where the two rules differ |
| Graph.FindById | graph.js:163 | the node d3's link force maps an id to has that id, and there is none exactly when no node has the id |
| Graph.ResolutionKeepsRules | graph.js:163 | resolving link ends into node objects changes neither the emphasis rule's verdict nor, for non-empty ids, the tooltip's |
| Graph.KnowledgeGraph.constructor | graph.js:74-76 | a new graph is empty, unbuilt and has no build in flight |
| Graph.KnowledgeGraph.AddEdges | graph.js:129-157 | the next link is appended and the next call scheduled, or, with every link in, the graph is built and `onComplete` runs once |
| Graph.KnowledgeGraph.AddNextNode | graph.js:94-124 | the next node is appended and the next call scheduled, or, with every node in, the links start at once |
| Graph.KnowledgeGraph.BuildAnimated | graph.js:83-127 | on a built graph only `onComplete` runs; otherwise the build starts from empty lists on the given data and makes its first append |
| Graph.KnowledgeGraph.Step | graph.js:94-157 | a timer firing makes the next append in input order (all nodes before any link), or completes the build |
| Graph.KnowledgeGraph.BuildToCompletion | graph.js:83-157 | running every timer ends with all nodes and links in input order, one progress record per append, and `onComplete` called once |
| Graph.KnowledgeGraph.HighlightSubgraph | graph.js:382-437 | both lists are stored as sets, and every drawn node and link gets its look by the emphasis rule; with nothing drawn the call throws after storing the sets |
| Graph.KnowledgeGraph.ResetHighlight | graph.js:440-475 | both sets are emptied and everything is drawn plainly; with nothing drawn the call throws after emptying them |
| Graph.SmallBuildScenario | graph.js:83-157 | building three nodes and two links of the demo's data reports the expected records, and highlighting two nodes emphasises exactly the link between them |
| App.AppState.constructor | app.js:10-12 | at start nothing is uploaded, no pipeline runs and the graph is empty |
| App.AppState.ProcessFile | app.js:102-142 | only the first call is accepted; it marks the document uploaded and shows the size and chunk summary |
| App.AppState.StartGraphBuild | app.js:151-172 | the upload's last step starts the animated build on the graph data and leaves the highlight sets alone; on a graph already built only `onComplete` runs once more and nothing else changes; with no data the build completes at once |
| App.AppState.HandleQuery | app.js:261-291 | as written: ignored while a pipeline runs; fills in the default question when the input is blank; otherwise routes the question, sets the guard and empties the highlight sets, then throws when nothing is drawn, and a guard set without a pipeline stays set; the ignored and default paths leave the highlight sets alone, the default path leaves the chosen query alone, a routed question leaves the input alone, and no path touches the build's data, progress or completions |
| App.AppState.HandleQueryFixed | app.js:261-291 | with the reset moved before the guard, the guard is set only when a pipeline starts that will clear it; the default-question path leaves the chosen query alone, a routed question leaves the input alone, and the graph's state changes as in HandleQuery |
| App.AppState.RunPipeline | app.js:300-356 | the pipeline highlights the chosen query's nodes and edges and ends by clearing the guard; the graph's lists, build data, timer, built flag, progress and completions stay, and so does the file summary |
| App.QueryBeforeUploadLocksOut | app.js:280-283 | as written, a query before the upload throws with the guard set, and a query after the graph is drawn is still ignored |
| App.QueryBeforeUploadRecoversWhenFixed | app.js:280-283 | corrected, the same sequence throws once, and then the later query starts the pipeline |
| Presentation.UpdateIndicator | presentation.js:65-71 | dot i is completed exactly when it comes before the cursor, and active exactly when it is the cursor; at most one dot is active |
| Presentation.CounterDeterminesStep | presentation.js:85 | two slides of one presentation never show the same counter text |
| Presentation.Presenter.constructor | presentation.js:8-9 | the presentation starts inactive at the first slide |
| Presentation.Presenter.RenderStep | presentation.js:73-99 | with the cursor on a slide, it draws that slide: counter, previous button hidden only on the first slide, "Finish" only on the last, dots; otherwise nothing it draws (slide, dots, counter, previous button, next label) changes |
| Presentation.Presenter.Open | presentation.js:38-45 | activates at the first slide with one dot per slide, and draws it |
| Presentation.Presenter.Close | presentation.js:47-53 | deactivates; the cursor, what is drawn, the counter, the previous button and the next label stay |
| Presentation.Presenter.NextStep | presentation.js:230-237 | advances and draws below the last slide; closes at the last; the number of dots is kept |
| Presentation.Presenter.PrevStep | presentation.js:239-244 | goes back one slide and draws it; nothing at the first; the number of dots is kept |
| Presentation.Presenter.ClickDot | presentation.js:60 | clicking dot i draws slide i; the number of dots is kept |
| Presentation.Presenter.KeyDown | presentation.js:30-35 | ignored while inactive; Escape closes, ArrowRight or Space advances (closing on the last slide), ArrowLeft goes back, other keys do nothing; closing, and ArrowLeft on the first slide, leave what is drawn as it was; the number of dots is kept |
| Presentation.WalkThrough | presentation.js:30-99 | with the six slides, opening and pressing ArrowRight five times reaches "Finish" on the last slide, and one more press closes the presentation there |

## Left out

- Drawing: d3's force simulation, SVG elements, transitions, zoom and drag are not modelled. Only the look each node and link is given is modelled, as values: radius, opacity in percent, pulse and the `highlighted` class.
- d3 graph state: the link force's in-place resolution of link ends is not part of the graph's state. It is a separate function, proved not to change the emphasis rule, nor the tooltip rule for non-empty ids (Graph.ResolutionKeepsRules).
- The DOM: overlay visibility, body overflow, panel highlights, the node and edge counters, the pipeline step elements, the slide title and description text, and `renderVisual` are left out.
- Timers: `setTimeout` delays and `Math.random` are left out. A pending timer is the explicit `timer` field, and `Step` runs it.
- The embedding modal, the chunk view and the tooltip's HTML are left out. The tooltip's incident-link filter is modelled.
- Graph.KnowledgeGraph.BuildAnimated: the model requires that no build is in flight. It does not model two interleaved builds sharing `nodes` and `links`.
- App.AppState.RunPipeline: the model runs steps 1 to 7 as one call. `runPipelineStep`'s path for a missing step element (app.js:303) is not modelled, because the page always has all seven.
- Callbacks: `onProgress` and `onComplete` are always passed in the demo and are assumed present. The model records what they receive.
- Graph.ResolutionKeepsRules: for a node whose id is empty, resolution does change the tooltip's verdict. A string end `""` matches the id `""`, while the resolved object falls back to itself and matches nothing. This edge case is not covered.
- JsString.ToLower: it lower-cases ASCII letters only. JavaScript's full Unicode case mapping is not modelled.
- Strings are sequences of characters. UTF-16 surrogate pairs are not distinguished from code points.
- JsString.Trim: it uses the white-space set of ECMAScript (including the line terminators, no-break space, BOM and the Unicode space separators). Characters outside that explicit list are treated as non-white.
- FileSize.FormatFileSize: file sizes are whole numbers. Sizes of 2^53 bytes or more, where floating-point division stops being exact, are not modelled.
- The data of data.js (graph, sample queries, slides) enters only as parameters and small fixtures. No property is proved about the full sample data.
- The pipeline's step texts, fact list and Cypher query display are left out.

## Findings

| source | as written | input that shows it | evidently intended | confidence | as-written member | corrected member |
|---|---|---|---|---|---|---|
| app.js:280-283 | `handleQuery` sets `pipelineRunning = true` before `graph.resetHighlight()`. Before the first upload nothing is drawn, so `resetHighlight` throws a TypeError on the missing d3 selections. The flag stays set and every later query is ignored. | a non-blank question submitted before any document is uploaded | the guard is set only once the pipeline that clears it has started (reset first, then set the flag) | not executed | App.QueryBeforeUploadLocksOut | App.QueryBeforeUploadRecoversWhenFixed |
| app.js:377-392 | `typewriterAnswer` stops after `text.replace(/\*\*/g, "").length` characters. An unmatched `**` stays in the segments' text but is removed from that count, so the last frame is cut short. | the answer "a\*\*b": the segments hold "a\*\*b", the count is 2 and the last frame shows "a\*" | type until every character of the segments is shown | not executed | Markdown.StrayDelimiterCutsAnswer | Markdown.TypedTextCorrectedIsWholeAnswer |
