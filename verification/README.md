# LexGraph, verified

LexGraph answers questions about Indian law from a graph of statutes, judgments and case papers. At query time it
walks the graph outwards from a few seed nodes, packs the best source excerpts into an evidence pack, has a language
model write an answer, and lets through only what that pack supports. Around this core stand a graph writer that keeps
every node traceable to its source, segmenters that cut documents into parts with exact offsets, a sweep that settles
overlapping citations, event buses, a live trace of each query, and a rate limiter for fetching sources.

This project models that behaviour and proves what it keeps. Each method is proved against a specification function or
predicate, and what the program promises is proved about the specification, over all inputs, all runs or all
interleavings.

| area | files |
|---|---|
| graph store, ontology and writer | `Ontology`, `StoreModel`, `GraphStore`, `GraphWriter` |
| graph walks and paths | `Reachability`, `PlainWalk`, `TypedWalk`, `WalkState`, `WalkTrace`, `WalkOutcome`, `WalkOrder`, `GraphPaths`, `GraphRetriever`, `WalksAgree` |
| evidence pack | `Evidence`, `EvidenceSelection`, `EvidenceConflicts`, `EvidenceBuilder` |
| citation enforcement | `Text`, `Markers`, `Splices`, `Sentences`, `SentenceCuts`, `Sections`, `Headings`, `Enforce`, `Cleaning`, `GateAccount`, `AnswerFormat`, `Forgery`, `RoundTrip`, `Recoverable`, `ReadBack` |
| generation and citations | `Generator`, `GroundedGenerator` |
| overlapping spans | `SpanSweep`, `Citations` |
| segmenters | `StatutePatterns`, `StatuteOpenings`, `StatuteSegmenter`, `BlockSegmenter` |
| traces, buses, rate limit | `TraceModel`, `TraceBus`, `EventStream`, `MemoryBus`, `RedisBus`, `RateLimiter` |
| reranking | `Reranking` |
| shared | `Wrappers`, `StableSort`, `Spelling` |

The main results:

* The query-time walk with its priority queue and the plain first-in-first-out walk meet one specification, bounded
  shortest-distance reachability; below the node budget it determines the result, and the two walks then agree
  (`GraphRetriever.GraphRetriever.TypedBfs`, `GraphStore.InMemoryGraphStore.Neighborhood`, `WalksAgree.WalksAgree`).
* The walk leaves no choice: its contract determines the nodes and their order, the edges reported and the parents,
  also when the node budget cuts it short (`WalkOutcome.ResultIsDetermined`).
* Of two nodes at one depth the walk expands the one of the better tier first, whichever edges led there; with equal
  tiers the one whose edge type stands earlier in the priority list; with both equal the one kept earlier
  (`WalkOrder.BestIsExpandedFirst`). The fan-out keeps neighbours by the same list (`WalkOrder.CutKeepsFirst`).
* Every discovered node has one path, a shortest one over stored edges, cut short exactly when the node lies 64 hops
  out or more (`GraphPaths.GuardedPath`).
* Whatever the model writes, an answer that is not refused cites the evidence. It shows pack markers only, each with
  exactly one citation, if and only if the deletion of fabricated markers puts no foreign one together
  (`GroundedGenerator.Generate`, `Forgery.GateIsExact`), which a reply can bring about
  (`GroundedGenerator.ForeignMarkerShown`). One deletion is harmless exactly when no marker is begun before and
  completed after the one cut out (`Splices.RemovalIsExact`); whatever the order of the deletions, it is enough that
  no foreign marker of the reply stands right after an unfinished one (`AnswerFormat.RenderedIsGrounded`).
* Printing an answer and reading it back gives the same answer (`RoundTrip.PrintThenParse`); of the answers that leave
  the gate exactly those come back that have answer text, no header line in it, no bullet sign left in front of a
  bullet, and no marker forged in one (`ReadBack.EnforcedReadsBackExactly`). The fallback provider's answer is never
  refused and cites every span of a built pack exactly once (`EvidenceBuilder.WholePackIsCited`).
* Every field of the enforced answer is told, for every reply, in characters and lines: which lines belong to which
  section, what becomes of each sentence and bullet, how confidence and sufficiency are read (`GateAccount.GateTells`).
* Sentence splitting loses no visible character (`Sentences.SplittingIsLossless`) and cuts exactly at the gaps behind
  full stops, question and exclamation marks (`SentenceCuts.SentencesAreCutExactly`), so the gate lets nothing through
  on the strength of the sentence before it (`SentenceCuts.KeptAreSingle`).
* The greedy evidence selection is pinned down by a description without a program in it
  (`EvidenceSelection.SelectionIsDetermined`), stays within its limits (`EvidenceBuilder.PackWithinLimits`,
  `EvidenceBuilder.PackWithinTiers`), and is over budget exactly in two cases (`EvidenceBuilder.PackOverBudget`).
* Every span of a finished pack, and every citation made of it, says field by field what its candidate and the record
  behind it say (`EvidenceBuilder.PackTells`, `Generator.ResolvedCitesAll`).
* One more span never lowers the confidence exactly if there are three already, it is low, or the only one is a
  statute (`EvidenceBuilder.NeverHurtsExactly`).
* After any run of writer calls a node resolves to a source span exactly if some accepted call tied it to an id whose
  final type is that of a source span (`GraphWriter.ResolvesExactly`).
* What an accepted call wrote to a node is what the store says in the end, tier and court level included, unless a
  later one wrote to the same node (`GraphWriter.StaysAsWritten`).
* Subscribers of a trace miss nothing exactly while their queue has room (`TraceModel.Delivery`). A closed event
  stream carried the history, all events and the outcome exactly if every event was published while it listened and
  found room (`EventStream.CompleteExactly`); without a timeout it listens to the end
  (`EventStream.StreamCarriesEverything`), and once the query is done it has a bounded number of steps left
  (`EventStream.StreamIsBounded`).
* In the Redis bus a message can still be acknowledged exactly if it is unread or in a live consumer's batch, and ends
  up both handled and dead-lettered exactly by a failed acknowledgement (`RedisBus.AckableExactly`,
  `RedisBus.HandledAndDeadExactly`).
* Fusing citations keeps the reporter's identity and the title's place (`Citations.ReportersSurvive`,
  `Citations.TitlesSurvive`), and each citation kept stems from a title or a reporter (`Citations.MergeAndDedupe`).
* Parts of a statute section share white space at most (`StatuteSegmenter.PartsAreApart`); blocks of a page cover it
  exactly (`BlockSegmenter.SegmentBlocks`).
* The token bucket bounds the requests in any stretch of time (`RateLimiter.RequestsArePaced`) and makes a request wait
  only if it must, and no longer than it must (`RateLimiter.WaitsExactly`, `RateLimiter.SleepsExactly`). The ranking
  separates two tiers whatever the texts exactly when their weights differ by more than 0.15
  (`Reranking.SeparationIsExact`).

Where the source calls for a decision the model makes explicit:

* A node's properties are a map whose keys are an enumeration with one open case; a mapping value the program tests
  for being empty is `Null`, an empty text or an empty list.
* The order in which the program goes through a set of markers is a parameter (`Order`), any order that visits each
  marker once, and not the same one for every line; there are such orders (`Enforce.OrdersExist`). Costs in tokens,
  `str.lower` on topics, the reading of a date and of a year, the clock, and the answers of the language model are
  parameters too.
* Decimal digits and white space are those of Unicode, as `\d`, `\s`, `int` and `str.strip` see them.
* Python's stable sort is `StableSort.Sort`; floats are reals.
* Places where the code and its own words differ. The graph sources speak of a node budget, but seeds are never
  counted against it (`services/lib/retrieval/graph_retriever.py:311-324`), so the result holds more nodes than the
  budget exactly when there are more admissible seeds than that: `TypedBfs` ensures it, and `WalkOutcome.SeedsOverrun`
  is an input. The Redis consumer's comment says a failed message is not acknowledged and stays pending
  (`services/lib/bus/redis_streams.py:70-73`), but the next two lines dead-letter and acknowledge it; the model
  follows the code, and `RedisBus.RaisedIsNotLeftPending` says exactly when such a message is acknowledged. The entity
  merger's comment says that of overlapping entities of equal length the pattern's wins
  (`services/lib/enrichment/legal_ner.py:150-152`); with nothing else as long near them it does exactly if it does not
  start later (`Citations.TieIsForTheEarlier`). The ontology's rules speak of a writer that rolls back a node it fails
  to link (`services/lib/ontology/rules.py:61-65`); the writer has no roll-back, and `GraphWriter.CallsAreAtomic`
  shows that it needs none.

## Model

| member | source | states |
|---|---|---|
| Ontology.ProvenanceEdgeAlwaysAccepted | services/lib/ontology/edge_types.py:243-247 | a provenance edge is permitted from every node type, and only to a source span or an episode |
| Ontology.DatedExactly | services/lib/ontology/edge_types.py:76-80 | amendments, repeals, crosswalks and validities must be dated, and no other edge |
| Ontology.AuthorityTierFor | services/lib/ontology/authority.py:91-127 | tiers are 1 to 8; tier 1 is for statute-like types only, tier 2 for judicial types whose level names the Supreme Court, whatever the level says |
| StoreModel.AfterConsistent | services/lib/graph/memory_store.py:28-68 | every accepted write keeps the adjacency index equal to a scan of the edges, the endpoints present and every edge within its schema, and removes nothing; a rejected one changes nothing |
| StoreModel.ReachableConsistent | services/lib/graph/memory_store.py:28-68 | the same over every run of writes from the empty store |
| StoreModel.ScanLists | services/lib/graph/memory_store.py:65-68 | the index of a node lists exactly the edges that touch it, oldest first |
| StoreModel.NodeWriteTells | services/lib/graph/memory_store.py:28-38 | an accepted node write, property by property: what is given replaces what was there, what is not given stays, id and type are the write's own, nothing else changes |
| StoreModel.EdgeWriteTells | services/lib/graph/memory_store.py:40-68 | an accepted edge write adds the edge, and bare nodes for the ends that are missing; no node changes |
| StoreModel.NeighborsAre | services/lib/graph/memory_store.py:150-176 | the neighbour records are exactly the edges at the node that pass the type filter and the direction |
| StoreModel.NeighborsTold | services/lib/graph/memory_store.py:150-176 | the records by their edges: one for every edge that touches the node and passes the filters, two for a loop, oldest first, each with the edge's type, direction and properties and the node at the other end |
| StoreModel.FirstProvenance | services/lib/graph/memory_store.py:140-148 | the oldest edge by which the node has a source span, if there is one |
| GraphStore.InMemoryGraphStore.constructor | services/lib/graph/memory_store.py:17-20 | a new store is empty |
| GraphStore.InMemoryGraphStore.UpsertNode | services/lib/graph/memory_store.py:28-38 | validates first; merges the properties and sets id and type, or changes nothing |
| GraphStore.InMemoryGraphStore.UpsertEdge | services/lib/graph/memory_store.py:40-68 | validates first; adds missing endpoints, the edge and both index entries, or changes nothing |
| GraphStore.InMemoryGraphStore.GetSpanForNode | services/lib/graph/memory_store.py:140-148 | the index scan finds the span of the oldest provenance edge of the node, or none if there is none |
| GraphStore.InMemoryGraphStore.NeighborRecords | services/lib/graph/memory_store.py:150-176 | returns the neighbour records in index order |
| GraphStore.InMemoryGraphStore.Neighborhood | services/lib/graph/memory_store.py:70-103 | first in, first out, with duplicates and invisible ids in the queue: ends, and keeps bounded shortest-distance reachability over visible nodes within the budget; the edges reported are exactly the stored edges of the kept nodes that lie below the hop limit |
| PlainWalk.VisibleExactly | services/lib/graph/memory_store.py:88-94 | the plain walk leaves a node out exactly for a tier other than zero above the ceiling, or for belonging to another matter than the one asked for |
| PlainWalk.PlainHopsAre | services/lib/graph/memory_store.py:98-101 | its hops go from one end of a stored edge to the other, if that one is visible |
| Reachability.DistanceIsShortestRoute | services/lib/retrieval/graph_retriever.py:326-382 | the distance that both walks are specified by is the length of a shortest route from the start nodes |
| Reachability.WalkIsDetermined | services/lib/retrieval/graph_retriever.py:326-382 | two walks that stay below their budgets keep the same nodes at the same depths |
| TypedWalk.Admissible | services/lib/retrieval/graph_retriever.py:395-418 | exactly: a private node passes only for a query scoped to its own matter, a node with a tier only up to the ceiling, one whose validity ends only for dates not after its end; nothing else is kept out |
| TypedWalk.AdmissibleExactly | services/lib/retrieval/graph_retriever.py:395-418 | a node is kept out exactly for its tier, for its matter, or because the end of its validity, read from the one property or else the other, lies before the date asked for |
| TypedWalk.CutKeepsPreferred | services/lib/retrieval/graph_retriever.py:338-341 | the fan-out cut keeps the preferred edge types: nothing cut ranks before anything kept |
| WalkOrder.CutKeepsFirst | services/lib/retrieval/graph_retriever.py:331-341 | the neighbours looked at, by their places: as many as the fan-out admits, each before any that is left out, by list position with unlisted types last, and of equals the older |
| TypedWalk.BonusFollowsPriority | services/lib/retrieval/graph_retriever.py:430-434 | in a list that names no type twice, an earlier edge type has the larger bonus, and every listed type a larger one than any other |
| TypedWalk.AuthorityBonusFalls | services/lib/retrieval/graph_retriever.py:421-427 | a better authority has the larger bonus, always above 0 and at most 1 |
| TypedWalk.FrontierIsStored | services/lib/retrieval/graph_retriever.py:331-346 | every neighbour looked at is a stored edge with the stored node at its other end |
| TypedWalk.PopLeast | services/lib/retrieval/graph_retriever.py:326-327 | the heap gives its least entry by depth, authority, edge bonus and arrival, and keeps all others; what that order means for the nodes is `WalkOrder.BestIsExpandedFirst` |
| WalkState.DiscoveryKeeps | services/lib/retrieval/graph_retriever.py:343-382 | keeping a new neighbour preserves the invariant of the walk: true distances, parents one layer nearer, heap and result in step |
| WalkState.PopKeeps | services/lib/retrieval/graph_retriever.py:326-329 | taking out the least entry preserves the invariant: entries come out by depth |
| GraphRetriever.GraphRetriever.Seed | services/lib/retrieval/graph_retriever.py:311-324 | exactly the stored, admissible seeds are kept and queued |
| GraphRetriever.GraphRetriever.Follow | services/lib/retrieval/graph_retriever.py:343-382 | one neighbour: its edge is reported, and it is kept if new and admissible while the budget lasts |
| GraphRetriever.GraphRetriever.Expand | services/lib/retrieval/graph_retriever.py:331-382 | after expanding a node below the budget, all its hops have been found |
| GraphRetriever.GraphRetriever.TypedBfs | services/lib/retrieval/graph_retriever.py:286-388 | kept nodes are admissible, at their shortest distance within the hop limit; every admissible seed is kept; complete below the budget, otherwise only the outermost layer is cut; over the budget exactly if the admissible seeds are; the edges, the order of the nodes and the parents are those the explanation in `WalkTrace.Explains` gives; one path for each discovered node |
| WalkTrace.WalkIsExplained | services/lib/retrieval/graph_retriever.py:326-382 | entries are taken out best first, in the sense of `WalkOrder.BestIsExpandedFirst`, and everything waiting comes after them; the edges reported are exactly one for each record looked at that names a node, those to inadmissible nodes included; kept are the seeds and the admissible nodes looked at, in order of first appearance, as far as the budget goes; the records looked at are those of the entries taken out, in order, up to the first node refused for want of room |
| WalkTrace.LookKeepsTold | services/lib/retrieval/graph_retriever.py:343-368 | a look that brings no node, because it is inadmissible, already kept or refused, keeps that account |
| WalkTrace.DiscoveryKeepsTold | services/lib/retrieval/graph_retriever.py:370-382 | a look that brings a new node keeps it, with its place, parent and heap entry |
| WalkOutcome.TakenAreKept | services/lib/retrieval/graph_retriever.py:326-329 | what is taken out of the heap is kept at its depth; with room left in the budget everything kept was taken out |
| WalkOutcome.ParentIsEarliest | services/lib/retrieval/graph_retriever.py:370-372 | the parent of a discovered node is the earliest node taken out that has it among its hops |
| WalkOutcome.ResultIsDetermined | services/lib/retrieval/graph_retriever.py:286-388 | two results for the same store, query and seeds have the same nodes in the same order at the same depths, the same edges and the same parents, also when the budget cuts them short |
| WalkOrder.BestIsExpandedFirst | services/lib/retrieval/graph_retriever.py:303-382 | of two nodes kept at one depth, if the second was taken out to be expanded then so was the first, before it: of a better tier, whichever edges led there, no tier counting as 5; or of the same tier and reached by an edge type that stands earlier in the priority list, any listed one before an unlisted one; or the same in both and kept earlier |
| WalkOrder.KeptAsStored | services/lib/retrieval/graph_retriever.py:320-373 | a node is kept as it is stored, property by property; one without a score gets 0 as a seed, else a score by the place in the priority list of the edge type that led there |
| WalkOutcome.SeedsOverrun | services/lib/retrieval/graph_retriever.py:311-326 | a store and a query with more admissible seeds than the budget: all of them are kept |
| WalksAgree.PolicyFor | services/lib/retrieval/graph_retriever.py:76-173 | of all intents only the crosswalk one restricts the edges followed |
| WalksAgree.PreferencesNameOnce | services/lib/retrieval/graph_retriever.py:51-173 | no list of preferences names an edge type twice |
| WalksAgree.WalksAgree | services/lib/graph/memory_store.py:70-103 | with no restricting policy, no cut by fan-out, no date and a matter scope, both walks keep the same nodes at the same depths below their budgets |
| GraphPaths.ReconstructPath | services/lib/retrieval/graph_retriever.py:444-457 | climbs the parents at most 64 times and turns the list around |
| GraphPaths.GuardedPath | services/lib/retrieval/graph_retriever.py:444-457 | the path is a shortest trail from a seed over stored edges exactly if the node is fewer than 64 hops away; otherwise, and only then, it is cut and opens with an edge type |
| GraphRetriever.GraphRetriever.BuildPaths | services/lib/retrieval/graph_retriever.py:384-388 | one path for every kept node that was not a seed, in order: the one its parents give |
| GraphPaths.SplitPaths | services/lib/generation/grounded_generator.py:275-285 | the even positions of each path as nodes, the odd ones as edges |
| GraphPaths.SplitAllIs | services/lib/generation/grounded_generator.py:275-285 | each path that is not empty is split in its place: its hops at even positions are the nodes, the others the edges |
| GraphPaths.TrailSplits | services/lib/generation/grounded_generator.py:275-285 | splitting undoes the interleaving: k+1 nodes and k edges in the order of the trail |
| GraphWriter.TieringIsHarmless | services/lib/graph/writer.py:94-98 | setting tier and court level never makes the store reject what was validated, nor accept what was not |
| GraphWriter.StaysAsWritten | services/lib/graph/writer.py:37-105 | over any run: a file, episode, span or node that an accepted call wrote reads, field by field, as the call gave it, unless a later one wrote to the same id; a typed node has the tier of its type and court level, written out, and the level given |
| GraphWriter.EdgesAreDrawn | services/lib/graph/writer.py:58-139 | over any run: the store has exactly the edges drawn by accepted calls, a span's to its episode, a node's to its span, and those linked |
| GraphWriter.CallsAreAtomic | services/lib/graph/writer.py:58-139 | a call whose first check passes has no write rejected: it writes all or nothing |
| GraphWriter.CallsStayConsistent | services/lib/graph/writer.py:30-139 | every run of calls leaves a consistent store that extends every earlier one |
| GraphWriter.AcceptedNodesResolve | services/lib/graph/writer.py:84-105 | however many calls follow, an accepted node resolves to a source span if no call names its span id as anything else |
| GraphWriter.ResolvesExactly | services/lib/graph/writer.py:30-139 | for every run and node: it resolves exactly if an accepted call wrote a provenance edge from it to an id whose final type is a source span; the final type is that of the last node write, or without one that under which the first edge names the id |
| GraphWriter.TypesAreFinal | services/lib/graph/memory_store.py:28-68 | the stored type of every id is its final type, read off the calls; an id without one is not stored |
| GraphWriter.ReusedSpanLosesProvenance | services/lib/graph/writer.py:37-38 | a run outside that condition: a span id reused for a file leaves the earlier node without a source |
| GraphWriter.GraphWriter.RegisterSourceSpan | services/lib/graph/writer.py:58-80 | writes the span and its edge to the episode, or nothing |
| GraphWriter.GraphWriter.UpsertTyped | services/lib/graph/writer.py:84-105 | validates, tiers, writes the node and its provenance edge, or nothing |
| GraphWriter.GraphWriter.LinkNodes | services/lib/graph/writer.py:121-139 | writes the edge or nothing |
| EvidenceSelection.MarkerIsFree | services/lib/retrieval/evidence_builder.py:147-205 | whether a candidate becomes evidence, and everything about its span but the marker, is independent of the marker |
| EvidenceSelection.MaterialisedTier | services/lib/retrieval/evidence_builder.py:183-202 | a span has the tier the first pass counted its candidate under |
| EvidenceSelection.EvidenceTells | services/lib/retrieval/evidence_builder.py:147-256 | which candidates become evidence; private exactly with a matter; excerpt, char range, title, court, date, place and source ids from record or node in the source's order of precedence, for the record and for the fallback path |
| EvidenceSelection.SelectSpans | services/lib/retrieval/evidence_builder.py:67-86 | up to where it stops, a candidate was taken exactly if it is evidence and its tier was not full; within span limit and tier cap, and within the budget unless it holds a single span; stops for lack of candidates, of room or of budget; the tokens are the sum over the spans |
| EvidenceSelection.SelectionIsDetermined | services/lib/retrieval/evidence_builder.py:67-86 | that description leaves no choice |
| EvidenceSelection.WeakestSpan | services/lib/retrieval/evidence_builder.py:273-278 | the span to evict is the first among the least binding, and of these the lowest scored |
| EvidenceSelection.AddAnchor | services/lib/retrieval/evidence_builder.py:90-112 | appends the first tier-1 candidate that is evidence, after evicting the weakest span if it does not fit; without one nothing changes; the tokens are again the sum |
| EvidenceSelection.AnchorOverrun | services/lib/retrieval/evidence_builder.py:104-112 | the anchor overruns the budget by at most its own cost, and adds at most one span |
| EvidenceBuilder.Renumber | services/lib/retrieval/evidence_builder.py:114-116 | markers become S1 to Sn in order and nothing else changes |
| EvidenceBuilder.MarkerNumber | services/lib/retrieval/evidence_builder.py:114-116 | a marker number is read back as it was written, so the markers are proper and all different |
| EvidenceBuilder.Build | services/lib/retrieval/evidence_builder.py:50-145 | first pass, anchor if called for, numbering, conflicts; tokens spent are the summed cost of the final spans; insufficient exactly if empty, or about statutes without an authority of High Court rank or better |
| EvidenceBuilder.PackTells | services/lib/retrieval/evidence_builder.py:50-256 | every span of the finished pack says so of one of the candidates |
| EvidenceBuilder.PackWithinLimits | services/lib/retrieval/evidence_builder.py:61-116 | at most one span over the limit; within budget or a single span without an anchor, over budget by at most the last span's cost with one |
| EvidenceBuilder.PackWithinTiers | services/lib/retrieval/evidence_builder.py:71-112 | no tier has more spans in the finished pack than the cap, the anchor included |
| EvidenceBuilder.PackOverBudget | services/lib/retrieval/evidence_builder.py:67-112 | the finished pack is over budget exactly if its only span of the first pass is too long, or the anchor is too long for what is left, even with the weakest span gone |
| EvidenceBuilder.AnchorIsPresent | services/lib/retrieval/evidence_builder.py:90-112 | with the switch on, a question about statutes has a tier-1 span whenever any candidate can provide one |
| EvidenceBuilder.MoreEvidenceNeverHurts | services/lib/retrieval/evidence_builder.py:281-294 | with three spans at hand, one more never lowers the confidence |
| EvidenceBuilder.NeverHurtsExactly | services/lib/retrieval/evidence_builder.py:281-294 | over all tiers from 1 to 8: no further span can lower the confidence exactly if there are three spans, or it is low, or the only span is of tier 1 |
| EvidenceBuilder.WeakIsLow | services/lib/retrieval/evidence_builder.py:281-294 | confidence is low exactly without evidence, for a statute question without a tier-1 span, or with the best three tiers averaging above 4.5 |
| EvidenceBuilder.ThirdSpanCanHurt | services/lib/retrieval/evidence_builder.py:281-294 | an instance outside that condition: tiers 1 and 2 give high confidence, a further tier 8 medium |
| EvidenceConflicts.DetectConflicts | services/lib/retrieval/evidence_builder.py:297-328 | groups spans by topic in order of mention and reports topic by topic |
| EvidenceConflicts.ConflictsAreExact | services/lib/retrieval/evidence_builder.py:297-328 | a topic is reported, once, exactly if two spans on it differ in tier and the stronger is of High Court rank or better; with the markers of all its spans in order, all their tiers ascending, and the description |
| EvidenceBuilder.TopicIs | services/lib/retrieval/evidence_builder.py:303 | a span's topic is the first of place, citation and title that is given and not empty, stripped and in lower case |
| EvidenceBuilder.WholePackIsCited | services/lib/generation/providers.py:194-217 | built pack and fallback: every span is cited exactly once, on the side of its kind, and nothing else is |
| Markers.MarkersAreOccurrences | services/lib/generation/enforce.py:30 | a marker is found exactly if it stands somewhere in the text |
| Markers.FindMarkers | services/lib/generation/enforce.py:203 | the left-to-right scan finds the markers the specification reads, in order |
| Markers.RemoveFrom | services/lib/generation/enforce.py:215-217 | if the marker nowhere stands right after an open bracket, deleting it removes all of its occurrences, no other marker, and brings none about |
| Splices.RemovalCanSplice | services/lib/generation/enforce.py:215-217 | a deletion inside an open bracket brings about a marker that was not there |
| Splices.RemovalIsExact | services/lib/generation/enforce.py:215-217 | a deletion takes away its marker and leaves all others exactly if no marker is begun before and completed after an occurrence of it; always, what is left are the other markers and those so put together |
| Forgery.RemoveAllExact | services/lib/generation/enforce.py:215-217 | after any sequence of deletions: the markers not deleted, and those put together on the way and not deleted later |
| Forgery.GateIsExact | services/lib/generation/enforce.py:70-118 | for every reply: the user sees pack markers only exactly if in no kept sentence or bullet the deletions put a foreign marker together |
| Forgery.GateCanBePassed | services/lib/generation/enforce.py:201-226 | a reply, for any pack with a proper marker, by which a marker from outside is shown |
| Forgery.UnwedgedIsHarmless | services/lib/generation/enforce.py:201-258 | in any order of deletions nothing is forged if no marker from outside the evidence pack stands right after an open bracket |
| Sentences.SplitSentences | services/lib/generation/enforce.py:159-193 | the loop returns the slices the specification names |
| Sentences.SplittingIsLossless | services/lib/generation/enforce.py:159-193 | sentences are slices in order that cover every visible character; only neighbours overlap, and only in markers and white space |
| SentenceCuts.SentencesAreCutExactly | services/lib/generation/enforce.py:159-193 | at each gap behind a full stop, a question or an exclamation mark, spelled out in characters, a sentence begins at the far end of the longest such gap, and the sentence before it ends with the markers in it; nowhere else |
| SentenceCuts.SentencesAreSingle | services/lib/generation/enforce.py:159-193 | no sentence holds such a gap with anything but markers behind it |
| SentenceCuts.KeptAreSingle | services/lib/generation/enforce.py:196-227 | what the gate keeps was a single sentence with a pack marker of its own |
| Sentences.SentenceMarkers | services/lib/generation/enforce.py:159-193 | the markers of the text are those of its sentences |
| Sections.SplitSections | services/lib/generation/enforce.py:126-151 | every section gets its lines, joined and stripped; text before any header belongs to the answer |
| Headings.SectionCollects | services/lib/generation/enforce.py:126-151 | a section's text: the lines of which the last heading so far is its own, or before any heading for the answer, in order, and what stands behind its title; titles spelled out, in whatever case |
| Sections.SectionInherits | services/lib/generation/enforce.py:126-151 | a section has no marker the text does not have, and none right after an open bracket that is not so in the text |
| Enforce.FilterSentence | services/lib/generation/enforce.py:201-226 | one sentence: kept, cleaned or dropped, and the report says which |
| Enforce.FilterSection | services/lib/generation/enforce.py:196-227 | keeps in order what may be kept; reports the rest, the fabricated markers and the counts |
| Enforce.EverySentenceIsAccountedFor | services/lib/generation/enforce.py:196-227 | kept and dropped sentences add up to all sentences |
| Enforce.KeptSentencesAreGrounded | services/lib/generation/enforce.py:205-224 | every kept sentence carries a marker of the evidence pack, whatever the text |
| Enforce.KeptSentencesCite | services/lib/generation/enforce.py:196-227 | with no foreign marker right after an open bracket, kept sentences cite exactly what the section cites of the evidence pack |
| Enforce.FilterBullet | services/lib/generation/enforce.py:239-258 | one bullet line: kept, cleaned or dropped, and the report says which |
| Enforce.FilterBullets | services/lib/generation/enforce.py:230-259 | keeps in order the bullet lines that may be kept; reports the rest and all fabricated markers |
| Enforce.KeptBulletsAreGrounded | services/lib/generation/enforce.py:244-256 | every kept bullet of a section that needs citations carries a marker of the evidence pack |
| Enforce.KeptBulletsCite | services/lib/generation/enforce.py:230-259 | with no foreign marker right after an open bracket, kept bullets cite nothing but the evidence pack |
| Cleaning.SentenceHasItsFate | services/lib/generation/enforce.py:201-226 | a sentence without a marker is dropped, one with pack markers only kept as it is; from any other the foreign markers are deleted, and it is kept exactly if a pack marker is left, with the same words and single white space |
| Cleaning.BulletHasItsFate | services/lib/generation/enforce.py:239-258 | the same for a bullet, without its bullet signs; one that needs no marker is kept if any text is left |
| Cleaning.BulletIsNoted | services/lib/generation/enforce.py:245-255 | the report notes a dropped bullet that needed a marker: its text if it had none, else the whole line |
| Cleaning.RemoveDeletes | services/lib/generation/enforce.py:216 | deleting goes from left to right, each time at the first place where the marker stands |
| Enforce.EnforceGrounding | services/lib/generation/enforce.py:70-118 | the whole gate: sections, filters, parsers, the fall back to low confidence and insufficient evidence, and the report: counts, everything dropped in order, every fabricated marker |
| GateAccount.GateTells | services/lib/generation/enforce.py:70-277 | for every reply: the answer is the kept sentences of its section, the bullets those kept of theirs, line by line; conflicts need no marker; without answer text confidence is low and the evidence insufficient, else both as their sections say; used are the pack markers of the sentences and all of the bullets |
| GateAccount.LevelIsRead | services/lib/generation/enforce.py:262-270 | the level is the first keyed word, else the word the section consists of, else low |
| GateAccount.YesIsRead | services/lib/generation/enforce.py:273-277 | insufficient exactly if the first keyed word is yes, or without a key the section says yes somewhere |
| AnswerFormat.FormatAnswer | services/lib/generation/enforce.py:280-299 | the canonical layout, with the blocks that are not empty |
| AnswerFormat.RenderedLabels | services/lib/generation/enforce.py:280-299 | a rendered answer shows the markers of its parts and no others |
| AnswerFormat.RenderedIsGrounded | services/lib/generation/enforce.py:70-118 | with no foreign marker right after an open bracket, the rendered answer shows pack markers only, and its answer text keeps every pack citation of its section |
| AnswerFormat.AnswerCitesPack | services/lib/generation/grounded_generator.py:94-113 | answer text that is left cites the evidence pack, whatever the reply |
| RoundTrip.PrintThenParse | services/lib/generation/enforce.py:126-151 | for a well-formed answer, splitting the rendered text and parsing each section gives every field back |
| ReadBack.ReadsBackExactly | services/lib/generation/enforce.py:126-151 | for every answer laid out as the gate lays it out: all fields come back exactly if no answer line is like a header, no bullet begins with a bullet sign, and the bullets show pack markers only |
| ReadBack.EnforcedReadsBackExactly | services/lib/generation/enforce.py:70-151 | for every reply: the answer that leaves the gate comes back exactly if it has answer text, no header line in it, no bullet sign left in front, and no marker forged in a bullet |
| ReadBack.HeaderLineIsLost | services/lib/generation/enforce.py:126-151 | an answer with a line like a header never comes back |
| Recoverable.EnforcedFits | services/lib/generation/enforce.py:70-118 | of the answers that leave the gate, exactly those are well formed that have answer text, no line in it like a header, and no bullet that still begins with a bullet sign |
| Recoverable.KeptBulletsAreLines | services/lib/generation/enforce.py:230-259 | every kept bullet is one line, stripped and not empty |
| Recoverable.EnforcedIsRecovered | services/lib/generation/enforce.py:126-151 | such an answer, if nothing was forged, is read back field by field from its rendering |
| Generator.FormatPack | services/lib/generation/grounded_generator.py:169-189 | headers, excerpts and conflicts, one under the other |
| Generator.HeaderIs | services/lib/generation/grounded_generator.py:184-189 | marker, tier and kind, then title, place, citation, court and date as far as they are there |
| Generator.PackLinesAre | services/lib/generation/grounded_generator.py:169-181 | three lines for every span, and behind a title one for every conflict |
| Generator.PackShowsMarkers | services/lib/generation/grounded_generator.py:184-189 | the formatted evidence shows every span's marker, whatever the excerpts contain |
| Generator.MarkersIn | services/lib/generation/providers.py:220-232 | each marker of the text once, where it first appears |
| Generator.StubComplete | services/lib/generation/providers.py:194-217 | the fallback's text |
| Generator.StubClaims | services/lib/generation/providers.py:206-210 | the fallback's claim, word for word, with every marker twice |
| Generator.ExcerptsAre | services/lib/generation/providers.py:211-213 | and one line for each marker |
| Generator.FallbackNeverRefuses | services/lib/generation/providers.py:194-217 | enforced, the fallback's text keeps its answer, counts as sufficient and shows exactly the proper markers of the evidence pack |
| Generator.SpanFor | services/lib/generation/grounded_generator.py:203-207 | a marker resolves exactly if some span carries it, and then to such a span |
| Generator.ResolveCitations | services/lib/generation/grounded_generator.py:197-227 | sorts the markers by number and gives each that resolves a citation, private ones apart |
| Generator.CitationsAreExact | services/lib/generation/grounded_generator.py:197-227 | exactly one citation for every marker that resolves, in its span's bucket, in ascending order, and no other citation |
| Generator.ResolvedCitesAll | services/lib/generation/grounded_generator.py:197-252 | a citation says field by field what the span says, with the kind of source by its type's name and the authority by court or tier; one for every marker shown of the kind, none else |
| GroundedGenerator.GroundedIsCited | services/lib/generation/grounded_generator.py:94-115 | an answer that is not refused has a citation, whatever the model wrote |
| GroundedGenerator.GroundedIsExact | services/lib/generation/grounded_generator.py:113-115 | only pack markers are shown, and each has its one citation on the side of its kind, exactly if nothing was forged |
| GroundedGenerator.ForeignMarkerShown | services/lib/generation/grounded_generator.py:94-115 | the same reply at the level of the whole answer: a marker no span carries is shown |
| GroundedGenerator.Generate | services/lib/generation/grounded_generator.py:42-164 | refuses exactly if the evidence is insufficient or enforcement leaves no answer text; otherwise the enforced answer with its citations, at least one, and each marker shown cited once exactly if nothing was forged; the answer is what `GateAccount.IsEnforced` says of the reply, and the citations say what their spans say; a failing provider is replaced by the fallback, which is never refused |
| SpanSweep.SweepSpans | services/lib/enrichment/citation_extractor.py:419-442 | the loop over the sorted spans computes the sweep |
| SpanSweep.SweepIsApart | services/lib/enrichment/citation_extractor.py:419-442 | what is kept are some of the spans, in order, none overlapping another |
| SpanSweep.SweepIsIdempotent | services/lib/enrichment/citation_extractor.py:419-442 | sweeping again changes nothing |
| SpanSweep.DominantIsKept | services/lib/enrichment/citation_extractor.py:432-440 | a span strictly longer than everything it overlaps is kept |
| SpanSweep.DroppedForLonger | services/lib/enrichment/citation_extractor.py:432-440 | from every span a chain of overlapping spans, none shorter than the one before, leads to a kept one |
| SpanSweep.LowerTwinIsDropped | services/lib/enrichment/citation_extractor.py:425-440 | of two spans with the same range, the one of lower rank is never kept |
| SpanSweep.RichestIsKept | services/lib/enrichment/citation_extractor.py:425-440 | where rank counts, a span is kept if nothing overlapping is longer, and what is as long has a lower rank, or the same and starts later |
| Citations.FindNearest | services/lib/enrichment/citation_extractor.py:376-386 | the nearest free reporter with a gap from -2 to 40, the first of equals; none exactly if none is near enough |
| Citations.MergeTitles | services/lib/enrichment/citation_extractor.py:359-416 | title by title the nearest reporter that is left, fused or as it was, then the reporters no title took |
| Citations.MatchingIsOneToOne | services/lib/enrichment/citation_extractor.py:379-389 | no reporter goes to two titles |
| Citations.MergingCounts | services/lib/enrichment/citation_extractor.py:375-416 | every title and every reporter goes into exactly one output |
| Citations.ReportersSurvive | services/lib/enrichment/citation_extractor.py:387-414 | some merged citation has the identity and the particulars of every reporter; if a title took it, that citation is a combined one with the title's start and parties, ends at the later of the two ends and quotes the text; otherwise it is passed on unchanged |
| Citations.TitlesSurvive | services/lib/enrichment/citation_extractor.py:375-405 | a title with a reporter near enough, from 2 characters before its end to 40 behind it, is combined with the nearest one left; any other is passed on unchanged |
| Citations.MergedQuote | services/lib/enrichment/citation_extractor.py:392-398 | fused citations still quote the text they point to |
| Citations.Dedupe | services/lib/enrichment/citation_extractor.py:419-442 | the sweep by length, then by kind |
| Citations.PrevailingIsKept | services/lib/enrichment/citation_extractor.py:419-442 | a citation is kept if all that overlaps it is shorter, or as long and of a kind that comes later: combined, then reporter, then title |
| Citations.MergeAndDedupe | services/lib/enrichment/citation_extractor.py:125-127 | citations in order, none overlapping another, each quoting the text; from every title and reporter, fused or as it was, a chain of overlapping citations that never get shorter leads to one that is kept; so for every title, and if all titles have two characters for every reporter, one at least as long is there; every reporter's identity is among the merged citations, and every citation kept stems from a title, a reporter or both, field by field |
| Citations.MergeEntities | services/lib/enrichment/legal_ner.py:147-170 | the sweep in which only a strictly longer entity replaces another |
| Citations.RegexBeatsModel | services/lib/enrichment/legal_ner.py:147-170 | found by pattern and by model with the same range, the model's is never kept, and the pattern's is if all else that overlaps is shorter |
| Citations.TieIsForTheEarlier | services/lib/enrichment/legal_ner.py:147-170 | of a pattern's and a model's entity of equal length that overlap, with nothing as long near them, the pattern's is the one kept exactly if it does not start later |
| Citations.ModelCanBeatRegex | services/lib/enrichment/legal_ner.py:150-152 | two entities of which the model's is kept |
| SpanSweep.FirstOfTiesIsKept | services/lib/enrichment/legal_ner.py:157-169 | where rank does not count, the first of equally long overlapping spans is kept if nothing longer overlaps it |
| TraceModel.RunConsistent | services/lib/observability/trace_bus.py:63-128 | over any run, handles stay distinct and histories and queues within their bounds |
| TraceModel.Delivery | services/lib/observability/trace_bus.py:63-128 | consumed and queued events are what was queued and what was published since, in order; without gap or repeat exactly if the queue was never full at a publication; whatever the sweep of old traces does |
| TraceModel.SubscriberStarts | services/lib/observability/trace_bus.py:77-89 | a new queue holds the history; subscribing fails exactly if the history is longer than a queue, never with a history size up to 1024 |
| TraceModel.HistoryIsRecent | services/lib/observability/trace_bus.py:63-71 | the history is the end of what was published, exactly the last `history_size` events if nothing was swept |
| TraceBus.TraceBus.constructor | services/lib/observability/trace_bus.py:56-61 | a new bus is empty |
| TraceBus.TraceBus.Publish | services/lib/observability/trace_bus.py:63-75 | sweeps, records and offers the event to every subscriber with room |
| TraceBus.TraceBus.Subscribe | services/lib/observability/trace_bus.py:77-89 | a fresh queue with the history, or failure and no change |
| TraceBus.TraceBus.Unsubscribe | services/lib/observability/trace_bus.py:91-96 | the queue is offered nothing more |
| TraceBus.TraceBus.Collect | services/lib/observability/trace_bus.py:120-128 | drops the history of traces untouched since the cutoff and leaves subscribers alone |
| TraceBus.TraceBus.Get | services/lib/observability/trace_bus.py:98-116 | takes the oldest event out of a queue |
| EventStream.StepKeeps | services/svc_http/routes/query.py:71-138 | every step of the stream, the query task and anyone else keeps the account of what is due, in hand, queued and sent |
| EventStream.StreamIsOrderly | services/svc_http/routes/query.py:71-138 | at any moment the frames are the opening, events that were due in order, and an end frame exactly if closed, as the last |
| EventStream.ClosedStreamIsComplete | services/svc_http/routes/query.py:93-138 | if the queue always had room, a closed stream carried everything due and then the outcome |
| EventStream.NothingIsMissed | services/svc_http/routes/query.py:93-111 | without a timeout the stream listens until the query task is done |
| EventStream.StreamCarriesEverything | services/svc_http/routes/query.py:71-138 | history at subscription, then all that was published, then exactly one end frame with the outcome |
| EventStream.TimeoutCanMiss | services/svc_http/routes/query.py:97-111 | a run that loses an event: from any reachable wait on an empty queue the stream can time out and close before the next event |
| EventStream.CompleteExactly | services/svc_http/routes/query.py:71-138 | every stream that has closed carried the history it found, all that was published since and the outcome exactly if each event was published while it listened and found room in the queue |
| EventStream.WaitIsReached | services/svc_http/routes/query.py:71-97 | such a wait is reached |
| EventStream.StreamEnds | services/svc_http/routes/query.py:93-138 | once the query task is done a listening stream can always go on, and every step of its own brings it nearer to the end |
| EventStream.StreamIsBounded | services/svc_http/routes/query.py:93-138 | from the end of the query task on, in any run, the steps of the stream are bounded by what its queue holds, whatever others do in between |
| MemoryBus.InMemoryBus.constructor | services/lib/bus/memory.py:22-26 | a new bus is empty and open |
| MemoryBus.InMemoryBus.Publish | services/lib/bus/memory.py:28-33 | queues and logs the event and numbers it, or refuses if closed |
| MemoryBus.InMemoryBus.Take | services/lib/bus/memory.py:45-46 | hands out the oldest event |
| MemoryBus.InMemoryBus.PutAside | services/lib/bus/memory.py:56-58 | adds the event to the dead letters |
| MemoryBus.InMemoryBus.Close | services/lib/bus/memory.py:60-61 | closes and changes nothing else |
| MemoryBus.EveryEventIsSomewhere | services/lib/bus/memory.py:28-58 | with any number of interleaved subscribers each published event is queued, in one subscriber's hands, handled or dead-lettered, once; and handed out in order of publication |
| MemoryBus.QuietMeansDone | services/lib/bus/memory.py:35-58 | with queue and hands empty, everything published was handled or dead-lettered |
| MemoryBus.RunIsLogged | services/lib/bus/memory.py:28-61 | over any run: the log holds every event published with its stream, the dead letters every failure with its event and reason, in order; closed exactly if it was closed |
| MemoryBus.NothingAfterClosing | services/lib/bus/memory.py:28-30 | once the bus is closed nothing more is published |
| RedisBus.AckedMeansDealtWith | services/lib/bus/redis_streams.py:45-78 | with crashes and failing calls: no handler started twice in a group, no second dead letter, acknowledged means handled or dead-lettered, nothing touched before the group began |
| RedisBus.BatchesAreSmall | services/lib/bus/redis_streams.py:48-55 | no consumer ever has more than eight messages at a time |
| RedisBus.CrashLosesBatch | services/lib/bus/redis_streams.py:48-55 | what a crashed consumer had in its batch is never looked at again by its group, whatever the bus does next |
| RedisBus.AckableExactly | services/lib/bus/redis_streams.py:45-78 | in every reachable state, a message not acknowledged can still be exactly if its group has not read past it or a live consumer has it in its batch |
| RedisBus.HandledAndDead | services/lib/bus/redis_streams.py:58-73 | wherever a consumer is done with its handler, the run can go on to have the message handled, dead-lettered and acknowledged |
| RedisBus.HandledAndDeadExactly | services/lib/bus/redis_streams.py:58-78 | over every run: a message is both handled and dead-lettered exactly if an acknowledgement of it failed and it was dead-lettered after that |
| RedisBus.RaisedIsNotLeftPending | services/lib/bus/redis_streams.py:58-73 | over every run: a message whose handler raised is acknowledged exactly if no consumer, working or crashed, has it in hand, and then has one dead-letter copy |
| RedisBus.HandlerFinishes | services/lib/bus/redis_streams.py:45-60 | such a consumer is reached |
| StatutePatterns.NextBoundary | services/lib/normalization/statute_segmenter.py:249-251 | the first place where a part ends, if there is one |
| StatutePatterns.OpeningIsBoundary | services/lib/normalization/statute_segmenter.py:243-246 | the opening of any part is a boundary for whatever is read before it |
| StatutePatterns.OpeningsDoNotNest | services/lib/normalization/statute_segmenter.py:71-74 | parts of different kinds: the words of the later begin only after the opening of the earlier, but for white space |
| StatuteOpenings.OpeningsAre | services/lib/normalization/statute_segmenter.py:71-74 | a pattern matches exactly where a part opens, each kind's opening words spelled out in characters |
| StatuteOpenings.EndingsAre | services/lib/normalization/statute_segmenter.py:243-246 | the pattern of endings matches exactly where a part ends, spelled out likewise |
| StatuteSegmenter.SectionRanges | services/lib/normalization/statute_segmenter.py:103-118 | section ranges are in order, within the text, none overlapping another |
| StatuteSegmenter.RangesAreExact | services/lib/normalization/statute_segmenter.py:103-118 | every section heading has its range, up to the next heading of whatever level or the end of the text, with its number; and every range is that of one |
| StatuteSegmenter.FindAll | services/lib/normalization/statute_segmenter.py:173-174 | all matches of a pattern, left to right, none overlapping the one before |
| StatuteSegmenter.OpeningsAreFound | services/lib/normalization/statute_segmenter.py:173-174 | wherever a part opens, it is found, or lies inside the words of one that is |
| StatuteSegmenter.PartSegments | services/lib/normalization/statute_segmenter.py:172-189 | each part runs to the first boundary after its opening or to the end of the section, and carries the stripped text of its range, its label and the section it belongs to |
| StatuteSegmenter.CutSection | services/lib/normalization/statute_segmenter.py:149-238 | a section segment and then the segments of its parts, kind by kind |
| StatuteSegmenter.SegmentSections | services/lib/normalization/statute_segmenter.py:149-240 | every section in turn |
| StatuteSegmenter.PartsAreApart | services/lib/normalization/statute_segmenter.py:172-238 | parts lie within their section and share no character but white space |
| StatuteSegmenter.SectionsAreApart | services/lib/normalization/statute_segmenter.py:112-118 | segments of different sections do not overlap |
| BlockSegmenter.SplitPage | services/lib/normalization/private_segmenter.py:59 | the pieces between blank lines |
| BlockSegmenter.PiecesTile | services/lib/normalization/private_segmenter.py:94 | splitting loses only white space, at least two characters at a time |
| BlockSegmenter.VisiblePiece | services/lib/normalization/private_segmenter.py:99-115 | looking a block up in the text succeeds, and finds it exactly where it stands |
| BlockSegmenter.BlankPiece | services/lib/normalization/private_segmenter.py:95-98 | after a blank piece the offset never passes the next one |
| BlockSegmenter.PageBlocks | services/lib/normalization/private_segmenter.py:91-115 | a page's blocks are its visible pieces in order, each quoting the text at its place, covering all that is visible |
| BlockSegmenter.SegmentBlocks | services/lib/normalization/private_segmenter.py:85-116 | over all pages: blocks quote the text, in order and apart, each on its page, covering every visible character of every page |
| BlockSegmenter.OneBlockOnly | services/lib/normalization/private_segmenter.py:85-116 | no character is in two blocks |
| RateLimiter.RateLimiter.constructor | services/lib/ingestion/http_fetcher.py:40-44 | a new limiter knows no host |
| RateLimiter.RateLimiter.Acquire | services/lib/ingestion/http_fetcher.py:46-58 | refills, takes a token or asks for the wait until there is one, and stores what is left and when |
| RateLimiter.GrantCosts | services/lib/ingestion/http_fetcher.py:46-58 | a grant costs one token out of what was left and gained, and leaves the bucket within its bounds |
| RateLimiter.RequestsArePaced | services/lib/ingestion/http_fetcher.py:37-58 | in any run over any hosts, any two grants to a host have at most burst plus rate times the time between them, both counted |
| RateLimiter.BurstGoesThrough | services/lib/ingestion/http_fetcher.py:46-58 | the bound is reached: a burst at one instant goes through, and the next request must wait |
| RateLimiter.WaitsExactly | services/lib/ingestion/http_fetcher.py:46-58 | in any run: a request waits exactly if letting it through at once would leave less than a token of what some earlier grant left and time has brought since, reckoned from requests and grants alone |
| RateLimiter.SleepsExactly | services/lib/ingestion/http_fetcher.py:53-56 | the sleeps that are long enough are exactly those after which that is no longer so, and no sleep asked for is longer than one token takes |
| RateLimiter.SpacedNeverWait | services/lib/ingestion/http_fetcher.py:46-58 | requests spaced by the time one token takes after a grant never wait |
| RateLimiter.BurstComesBack | services/lib/ingestion/http_fetcher.py:46-58 | after an idle stretch of burst divided by rate a whole burst goes through at one instant again, and no more |
| Reranking.LexicalScoreBounds | services/lib/reranking/semantic_reranker.py:28-36 | the score is between 0 and 1, and 0 exactly if no word is in common |
| Reranking.PerfectScore | services/lib/reranking/semantic_reranker.py:28-36 | and 1 exactly if the text has the query's words and no others, and the title has them too |
| Reranking.LexicalScoreIs | services/lib/reranking/semantic_reranker.py:28-36 | the score in full: seven tenths for the share of common words in all words of query and text, three for the share of the query's words that the title has |
| Reranking.TokensAre | services/lib/reranking/semantic_reranker.py:21-25 | the words are the longest runs of ASCII letters and digits, three or more of them, in small letters |
| Reranking.LexicalIs | services/lib/reranking/semantic_reranker.py:66-86 | compared are the first of summary, excerpt and text that is not empty, cut to 512 characters, and the first of title, heading and section |
| Reranking.RecencyBonus | services/lib/reranking/authority_reranker.py:25-35 | between 0 and 1, whatever the date |
| Reranking.RecencyIs | services/lib/reranking/authority_reranker.py:25-35 | nothing for a date that cannot be read or lies before 1950; from 1950 to 2030 an eightieth for each year; then 1 |
| Reranking.NewerCountsMore | services/lib/reranking/authority_reranker.py:25-35 | the newer of two dates never counts less, and counts more unless both are before 1950 or after 2030 |
| Reranking.ScoreIs | services/lib/reranking/authority_reranker.py:15-20 | the score: the reciprocal of the tier, a tenth of the semantic score and a twentieth of the bonus of the decision date, or else the date |
| Reranking.SeparationIsExact | services/lib/reranking/authority_reranker.py:15-20 | one tier is above another for all scores exactly if their weights differ by more than 0.15 |
| Reranking.TopTiersStand | services/lib/reranking/authority_reranker.py:15-20 | tier 1 and tier 2 are above all later tiers; tier 3 is not always above tier 4 |
| Reranking.ScaleIsReached | services/lib/reranking/authority_reranker.py:15-20 | texts and dates reach the ends of the scale: the worst candidate of one tier stays above a perfect one of another exactly if the weights differ by more than 0.15, without dates by more than 0.1 |
| Reranking.TierFourAhead | services/lib/reranking/composite.py:16-20 | a query and two candidates, of tier 3 and tier 4, that are ranked the other way round |
| Reranking.SemanticRank | services/lib/reranking/semantic_reranker.py:63-87 | the lexical fallback scores every candidate and sorts by falling score |
| Reranking.AuthorityRank | services/lib/reranking/authority_reranker.py:14-22 | scores every candidate and sorts by falling score, ties in order: the candidates of each score stand in the order they came |
| Reranking.ByScoreIsStable | services/lib/reranking/authority_reranker.py:22 | sorting by score keeps candidates of equal scores in order |
| Reranking.ByKeyPermutes | services/lib/reranking/authority_reranker.py:22 | sorting keeps the very same candidates |
| Reranking.CompositeRank | services/lib/reranking/composite.py:16-20 | the same candidates by falling score; no tier-1 candidate below another tier's, no tier-2 candidate below one of tier 3 or later |

## Left out

Contracts weaker than the source allows:

- AnswerFormat.RenderedIsGrounded: the condition goes one way, since it does not depend on the order of the deletions; the exact one, which does, is `Forgery.GateIsExact`.
- RoundTrip.PrintThenParse: goes one way, for any well-formed answer; for the answers of the gate `ReadBack.EnforcedReadsBackExactly` goes both ways.
- EvidenceConflicts.DetectConflicts: lower-casing of topics is a parameter, so two topics are one exactly if that function makes them so.
- StatuteSegmenter.SegmentSections: the headings of parts, chapters and sections are given with their positions; the three patterns that find them, act detection, page numbers and parent labels of sections are not modelled.
- Citations.MergeTitles: titles and reporters are given; the patterns that find them are not modelled. Titles carry no court, so the comparison of courts the function's description speaks of has nothing to compare, and the code makes none.
- TraceBus.TraceBus.Subscribe: a queue is a handle into the bus, so that a queue object may be shared is not captured.
- MemoryBus.EveryEventIsSomewhere: cancelling a subscriber in the middle of a handler is not a step.
- EventStream.StreamCarriesEverything: a client that disconnects is not a step; the 120-second timeout is one, and is excluded here.
- Enforce.EnforceGrounding: word boundaries in the confidence and sufficiency patterns tell ASCII letters, digits and the underscore apart from the rest, and no other letters; ignoring case leaves out the few letters outside ASCII that fold into it.
- StatutePatterns.OpeningsDoNotNest: in the patterns too, word boundaries know ASCII letters, digits and the underscore only, and ignoring case leaves out the few letters outside ASCII that fold into it.
- Generator.ResolveCitations: `int` refuses numerals of more than 4300 digits; the model reads them all.
- GraphStore.InMemoryGraphStore.Neighborhood: an authority tier that is not an integer counts as absent.
- EvidenceSelection.SelectSpans: candidates have tiers 1 to 8 or none; the source raises for others. Page numbers and matter ids of spans are not carried.

Not modelled:

- Neo4j, Graphiti, Qdrant, MinIO, OpenAI, Hugging Face and OCR calls, and the fold-in of Graphiti hits into a retrieval.
- The HTTP routes other than the event stream, command lines, worker entry points, the user interface, the HTTP cache, robots.txt and logging.
- Embedding and cross-encoder scores; only the lexical fallback and semantic scores between 0 and 1 in general.
- Reporter citation patterns, party-name heuristics, intent patterns, node labels and extras of blocks.
- The rejection rate, which divides dropped sentences and bullets by sentences alone.
- Negative settings (hops, budgets, fan-out, spans) and clocks that run backwards.
- Notes, trace ids, narratives of graph paths and other fields of an answer that only repeat their inputs.
- Answer conflicts' severity, `find_nodes`, `lookup_case_by_citation`, `register_file` and `register_episode` as methods; the last two are calls of the writer's runs all the same.
