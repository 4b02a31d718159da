# tog-neo4j in Dafny

A Dafny model of the knowledge-graph question-answering core of tog-neo4j, with proofs of its contracts.

The main part is the Think-on-Graph ("ToG") beam search, which exists in two copies:

- `ToGReasoning` in `tog_reasoning.py`;
- `ToGService` in `services/query_tog_service.py`.

A ToG run works in three phases:

1. An LLM names the topic entities of a question. The entity linker or a lexical fallback maps them onto graph nodes.
2. Each iteration:
   - collects the relations around the tails of the current paths;
   - lets the LLM prune the relations, and then the target entities;
   - extends every path by one chained hop;
   - keeps the first `width` new paths, or the old beam when no path grew.
3. An LLM judge decides whether the paths already answer the question. The loop stops when they do, when the beam is empty, or at the depth limit.

The graph store, the retriever and the LLM are uninterpreted function parameters. An exception is a `Failure` of the `Result` type in `wrappers.dfy`.

Around that engine the model covers:

- The Neo4j partition layer:
  - the `grag_id` filter rewriting of Cypher text;
  - parameter binding;
  - the per-partition connector cache;
  - a concrete neighbour store with its partition contract.
- The ingestion transforms:
  - relation-type normalisation;
  - key and match-field detection;
  - grouping of triples by type;
  - the GraphRAG table extractor.
- The audit services' decision helpers:
  - risk-level merge;
  - release-event filter;
  - process identification;
  - alarm rules;
  - JSON extraction from LLM replies;
  - keyword fallback;
  - history windows.
- The agent layer:
  - `AgentContext`/`AgentResult`, `BaseAgent` and `AgentRegistry`;
  - the planner's reply parsing;
  - the auto-query agent's method selection and knowledge-base fallback;
  - the LangGraph agent's six-node workflow and its multi-knowledge-base loop.
- The response envelope `R` in its two copies, the API response formatter, GraphRAG output cleaning and hybrid answer selection.

Python behaviour that matters to a result is written out explicitly:

- `dict.get` defaults and truthiness;
- `TypeError` from `len`/`join` on a non-sequence;
- `KeyError`;
- unhashable dictionary keys;
- `records[-k:]` slicing;
- LangGraph's recursion limit of 25 steps.

Modules follow the source files:

| file | module | source |
|---|---|---|
| `wrappers.dfy`, `text.dfy`, `records.dfy`, `json_values.dfy` | Wrappers, Text, Records, JsonValues | Python values: results, string methods, dict rows, JSON |
| `paths.dfy`, `tog.dfy` | ToGPaths, ToG | the beam-search engine shared by both copies |
| `tog_reasoning.dfy`, `tog_service.dfy` | ToGReasoning, ToGService | the two engine classes |
| `entity_linking.dfy` | EntityLinking | `ywretriever.py`, `scripts/ywretriever.py` |
| `graph_store.dfy`, `cypher_filter.dfy`, `connector_cache.dfy` | GraphStore, CypherFilter, ConnectorCache | `neo4j_connector.py`, `core/neo4j_db.py` |
| `relation_type.dfy`, `triple_import.dfy`, `numbers.dfy`, `graph_extract.dfy` | RelationType, TripleImport, Numbers, GraphExtract | `insert_to_neo4j.py`, `deal_graph.py` (`numbers.dfy` holds Python's `int()` and `float()` on table cells) |
| `yw_audit.dfy`, `audit_service.dfy` | YwAudit, AuditService | `services/yw_service.py`, `services/audit_service.py` |
| `envelopes.dfy`, `response_formatter.dfy`, `graphrag_output.dfy`, `hybrid_query.dfy` | Envelopes, ResponseFormatter, GraphRagOutput, HybridQuery | `models/schemas.py`, `Response.py`, `api_response_formatter.py`, `utils/common.py`, `services/query_hybrid_service.py` |
| `routing.dfy`, `agents.dfy`, `planner.dfy`, `auto_query.dfy`, `langgraph_agent.dfy` | Routing, Agents, Planner, AutoQuery, LangGraphAgent | `agents/` |

## Model

| member | source | states |
|---|---|---|
| ToG.FallbackMatching | tog-neo4j/tog_reasoning.py:151-173 | Lexical fallback: every topic entity is the exact hit, the fuzzy hit or the raw mention of some mention. The result has no repeats and at most `beam_width` entries. It is non-empty when there is a mention and the width is positive. |
| ToG.FallbackKeepsUnmatched | tog-neo4j/tog_reasoning.py:155-173 | With no exact and no fuzzy hit anywhere, the fallback keeps the first `beam_width` distinct raw mentions. |
| ToG.TopicEntities | tog-neo4j/tog_reasoning.py:115-149 | Topic extraction raises only when the LLM raises. Its entities are distinct and at most `beam_width`, on the linking path and on the fallback path alike. |
| ToG.TopicEntitiesWithoutRetriever | tog-neo4j/tog_reasoning.py:121-146 | Without a retriever, topic entities exist exactly when the comma-split, trimmed reply has a non-blank item. |
| ToG.Prune | tog-neo4j/tog_reasoning.py:205-216 | Pruning keeps candidates that fit the width without asking the LLM. Otherwise it returns the reply's trimmed comma items, at most `beam_width` of them, with no membership check. |
| ToG.PruneEmptyReply | tog-neo4j/tog_reasoning.py:214-216 | An empty pruning reply selects nothing: there is no first-k fallback. |
| ToG.PruneEchoedList | tog-neo4j/tog_reasoning.py:208-216 | A reply listing any names yields the first `beam_width` of them, whether or not they are candidates. |
| ToG.RelationCandidates | tog-neo4j/tog_reasoning.py:195-198 | The relation candidates are exactly the distinct non-empty relation names of the neighbour rows. |
| ToG.TargetCandidates | tog-neo4j/tog_reasoning.py:240-250 | The target candidates have no repeats: `dict.fromkeys` keeps one copy of each. |
| ToG.TargetCandidatesMembers | tog-neo4j/tog_reasoning.py:240-250 | The target candidates are exactly the distinct non-empty targets reached over that relation. |
| ToG.SelectRelations | tog-neo4j/tog_reasoning.py:190-219 | An entity without relation candidates gets no relations. Otherwise it gets at most `beam_width` relations, and the selection raises only when an LLM call raises. |
| ToG.SelectTargets | tog-neo4j/tog_reasoning.py:252-264 | Targets that fit the width are kept as they are. Otherwise at most `beam_width` are selected. |
| ToG.SelectTargetsSeesTwenty | tog-neo4j/tog_reasoning.py:256-261 | Candidates beyond the twentieth never influence the selected targets. |
| ToG.ExploreRelations | tog-neo4j/tog_reasoning.py:179-221 | There is one relation list per distinct entity, and a failing model call is the only way to fail. |
| ToG.ExploreRelationsContent | tog-neo4j/tog_reasoning.py:179-221 | Entry `i` pairs the `i`-th entity with that entity's own selection, in order. |
| ToG.ExploreSource | tog-neo4j/tog_reasoning.py:234-272 | Exploring one source raises only when an LLM call raises. |
| ToG.WithTargets | tog-neo4j/tog_reasoning.py:235-247 | The relations explored for one source are exactly its selected relations that have target candidates, in order. |
| ToG.SourcePairs | tog-neo4j/tog_reasoning.py:234-247 | One source gives one (source, relation) pair per selected relation with target candidates, in relation order. |
| ToG.SourcePairsCons | tog-neo4j/tog_reasoning.py:235-247 | A relation with target candidates puts its pair ahead of the later relations' pairs. A relation without candidates adds nothing. |
| ToG.ExploreSourcePairs | tog-neo4j/tog_reasoning.py:234-272 | Exploring one source prunes exactly its pairs, in relation order. Every selected relation with target candidates yields exactly one exploration, and a failing pruning stops the loop. |
| ToG.SelectEach | tog-neo4j/tog_reasoning.py:252-270 | Pruning a list of pairs yields one exploration per pair. It raises only when an LLM call raises. |
| ToG.SelectEachContent | tog-neo4j/tog_reasoning.py:252-270 | Pruning a list of pairs succeeds exactly when each pair's pruning does. Exploration `k` is then pair `k` with its selected targets. |
| ToG.SelectEachFirstError | tog-neo4j/tog_reasoning.py:252-270 | A failing run of prunings fails with the error of the first pair whose pruning fails. |
| ToG.SelectEachAppend | tog-neo4j/tog_reasoning.py:234-270 | Pruning two lists of pairs in a row prunes the first list, then the second, and stops at the first failure. |
| ToG.ExploreEntities | tog-neo4j/tog_reasoning.py:223-274 | Entity exploration raises only when an LLM call raises. |
| ToG.ExploreEntitiesPairs | tog-neo4j/tog_reasoning.py:223-274 | Entity exploration is the pruning of every source's pairs in turn, in entity order. So exploration `k` is pair `k` with its selected targets, and the first failing pruning is the error. |
| ToG.PairsMembers | tog-neo4j/tog_reasoning.py:234-247 | A pair is explored exactly when its source was explored with that relation selected and the pair has target candidates. |
| ToG.Step | tog-neo4j/tog_reasoning.py:302-326 | Exploring from the tails keeps chained paths chained and keeps the beam within the width. The beam is empty afterwards only when it was empty before. On success, relation and entity exploration both succeeded, and the new beam is `Advance` of the old paths and the explorations. |
| ToG.Advance | tog-neo4j/tog_reasoning.py:308-326 | When no path grew, the new beam is the old beam. Otherwise it is the first `width` grown paths, in generation order. Either way chained paths stay chained, the beam stays within the width, and it is empty only when the old beam is. |
| ToG.Iterate | tog-neo4j/tog_reasoning.py:276-326 | When some path has a tail (for `ToGService`, when the beam is non-empty), an iteration is one `Step` from the beam's tails. Otherwise it seeds from the topic entities, and a raising topic extraction is the result. It preserves chaining and the width bound. |
| ToG.Sufficient | tog-neo4j/tog_reasoning.py:344-356 | A beam with no non-empty path is insufficient without an LLM call. Otherwise it is sufficient exactly when the lower-cased reply contains "yes". |
| ToG.Loop | tog-neo4j/tog_reasoning.py:408-428 | The loop runs at most depth iterations. Every beam before the last was non-empty and judged insufficient, and an early stop means the last beam is empty or judged sufficient. |
| ToG.Run | tog-neo4j/tog_reasoning.py:394-456 | `reason` succeeds exactly when exploration does not raise, the final beam is non-empty and the answer is generated. Without an error it carries the fixed notice; an exception becomes `success=False` with "推理过程出错: " and the error text. |
| ToG.LoopInvariant | tog-neo4j/tog_reasoning.py:408-416 | A beam property that each iteration preserves holds of every beam the loop visits. |
| ToG.LoopKeepsBeam | tog-neo4j/tog_reasoning.py:408-428 | If iterations never empty a non-empty beam and the judge never raises, the loop ends on a non-empty beam. |
| ToG.LoopSucceeds | tog-neo4j/tog_reasoning.py:408-428 | If iterations and the judge never raise, neither does the loop. |
| ToG.IterateKeepsBeam | tog-neo4j/tog_reasoning.py:286-326 | With an LLM that never raises, a non-empty chained beam stays non-empty and chained: a stalled expansion returns the old beam. |
| ToG.IterateFromEmpty | tog-neo4j/tog_reasoning.py:295-300 | From an empty beam, the first iteration yields paths exactly when there are topic entities. |
| ToG.SufficientReliable | tog-neo4j/tog_reasoning.py:344-356 | With an LLM that never raises, the sufficiency test never raises. |
| ToG.RunReliable | tog-neo4j/tog_reasoning.py:404-446 | With an LLM that never raises, a run takes the normal branch, and success means the final beam is non-empty. |
| ToG.ExploreKeepsBeam | tog-neo4j/tog_reasoning.py:408-428 | Once the beam is non-empty and chained, the loop keeps it non-empty until it stops: a stalled expansion does not end the loop. |
| ToG.ExploreFromEmpty | tog-neo4j/tog_reasoning.py:404-428 | From an empty beam, the loop ends on paths exactly when there are topic entities. |
| ToG.RunSucceedsIffTopics | tog-neo4j/tog_reasoning.py:404-436 | With a positive width and depth, a run succeeds exactly when topic extraction finds an entity. |
| ToG.ExploreChained | tog-neo4j/tog_reasoning.py:309-322 | Every beam the loop visits consists of chained paths. |
| ToG.ExploreBounded | tog-neo4j/tog_reasoning.py:326 | Every beam the loop visits holds at most `beam_width` paths. |
| ToG.RunNeedsTheLlm | tog-neo4j/services/query_tog_service.py:269-316 | When every LLM call raises, no run succeeds, whatever the graph holds. |
| ToGPaths.Seeds | tog-neo4j/tog_reasoning.py:295-300 | Seeding gives one chained seed path per topic entity. |
| ToGPaths.Tails | tog-neo4j/tog_reasoning.py:286-293 | The tails are the last targets of the non-empty paths, in beam order. There are none exactly when every path is empty. |
| ToGPaths.ExtendBy | tog-neo4j/tog_reasoning.py:316-322 | Each target gives one new path: the old path plus one hop, and the old path is not mutated. |
| ToGPaths.ExtendPathGrown | tog-neo4j/tog_reasoning.py:310-322 | Every extension of a path is that path plus one hop offered from its tail. |
| ToGPaths.ExtendPathComplete | tog-neo4j/tog_reasoning.py:313-322 | Every hop offered from a path's tail appears among its extensions. |
| ToGPaths.ExpandGrown | tog-neo4j/tog_reasoning.py:308-322 | Every new path is an old path of the beam plus exactly one hop whose source is the old tail. |
| ToGPaths.ExpandAppend | tog-neo4j/tog_reasoning.py:309-322 | Expansion keeps the beam order: the new paths of earlier paths come first. |
| ToGPaths.ExtendPathAppend | tog-neo4j/tog_reasoning.py:313-322 | One path's extensions keep the exploration order: those of earlier explorations come first. |
| ToGPaths.ExpandSingle | tog-neo4j/tog_reasoning.py:313-322 | One path meeting one exploration gets one new path per target, in target order, when the exploration leaves its tail, and none otherwise. |
| ToGPaths.ExpandComplete | tog-neo4j/tog_reasoning.py:308-322 | No offered hop is lost: every path meets every exploration that leaves its tail. |
| ToGPaths.ExpandChained | tog-neo4j/tog_reasoning.py:309-322 | Expanding chained paths yields chained paths. |
| ToGPaths.HopTexts | tog-neo4j/tog_reasoning.py:336-339 | Hops without a relation are skipped. A path renders to nothing exactly when none of its hops has a relation. |
| ToGPaths.PathText | tog-neo4j/tog_reasoning.py:336-340 | A path's text is empty exactly when no hop carries a relation. |
| ToGPaths.PathTexts | tog-neo4j/tog_reasoning.py:335-339 | There is one rendering per path, in beam order. |
| ToGPaths.NumberedSound | tog-neo4j/tog_reasoning.py:335-341 | Every printed number is the 1-based position of a path with a non-empty rendering. |
| ToGPaths.NumberedComplete | tog-neo4j/tog_reasoning.py:335-341 | Every path with a non-empty rendering is printed under its original position. |
| ToGPaths.NumberedIncreasing | tog-neo4j/tog_reasoning.py:335-341 | The printed numbers strictly increase: empty paths leave gaps and do not renumber. |
| ToGPaths.PathLines | tog-neo4j/tog_reasoning.py:332-342 | There is one line per printed path. |
| ToGPaths.PathLinesNumbered | tog-neo4j/tog_reasoning.py:332-342 | Line `k` is the "Path n: ..." line of a path with a non-empty rendering, and `n` is that path's 1-based position in the beam. |
| ToGReasoning.NewEngine | tog-neo4j/tog_reasoning.py:20-47 | The constructor keeps its arguments. A retriever exists exactly when loading the dense index succeeds. |
| ToGReasoning.DefaultEngine | tog-neo4j/tog_reasoning.py:20-29 | The defaults are beam width 3, depth 10 and linking threshold 15.0. |
| ToGReasoning.CallLlm | tog-neo4j/tog_reasoning.py:95-109 | `_call_llm` returns the stripped reply, or "" when the call raises. |
| ToGReasoning.Asker | tog-neo4j/tog_reasoning.py:95-109 | The engine's view of the LLM never raises. |
| ToGReasoning.Reason | tog-neo4j/tog_reasoning.py:373-446 | The depth limit is the argument when given, else the constructor's. A run never ends in the exception branch, and success means the final beam is non-empty. |
| ToGReasoning.ReasonIgnoresWidth | tog-neo4j/tog_reasoning.py:395-399 | The per-call `max_width` never changes the outcome. |
| ToGReasoning.ReasonDepthOverride | tog-neo4j/tog_reasoning.py:394 | A per-call depth acts exactly as a constructor depth would. |
| ToGReasoning.ReasonSucceedsIffTopics | tog-neo4j/tog_reasoning.py:403-436 | With a positive width and depth, a question succeeds exactly when it yields a topic entity. |
| ToGReasoning.ReasonZeroDepth | tog-neo4j/tog_reasoning.py:408-436 | A depth of zero or less runs no iteration and returns the fixed notice. |
| ToGService.RetrieverPath | tog-neo4j/services/query_tog_service.py:28 | The index directory is `<graphrag root>/<grag_id>/.retrive`, with pathlib's rule for an absolute id. |
| ToGService.NewService | tog-neo4j/services/query_tog_service.py:17-37 | The constructor keeps its id, depth and width. A retriever exists exactly when the partition's index loads. |
| ToGService.DefaultService | tog-neo4j/services/query_tog_service.py:17 | Depth and width default to 5. |
| ToGService.Reason | tog-neo4j/services/query_tog_service.py:269-316 | `reason` takes no overrides. Success means the final beam is non-empty, and an exception gives the "推理过程出错: " answer. |
| ToGService.ReasonWithBrokenLlm | tog-neo4j/services/query_tog_service.py:87-92 | An LLM call that always raises makes every run of positive depth end in the exception branch with that message. |
| ToGService.ReasonSucceedsIffTopics | tog-neo4j/services/query_tog_service.py:277-306 | With an LLM that never raises, a run succeeds exactly when topic extraction finds an entity. |
| EntityLinking.SearchAll | tog-neo4j/ywretriever.py:76-77 | There is one search result per mention, or the exception of a mention whose search raises. |
| EntityLinking.Link | tog-neo4j/ywretriever.py:66-94 | Linking gives the top hit's text of each mention with a hit, in mention order. Mentions without a hit are dropped, and nothing is deduplicated. Empty input gives empty output. |
| EntityLinking.LinkThresholdIrrelevant | tog-neo4j/ywretriever.py:79-88 | The threshold never changes the linked names, only the printed markers. |
| EntityLinking.LinkFailureSticks | tog-neo4j/ywretriever.py:76-77 | A search that raises for any mention makes the whole linking raise. |
| EntityLinking.NewRetriever | tog-neo4j/ywretriever.py:55-60 | Any retriever type other than "dense" raises `ValueError`. |
| EntityLinking.IndexDocuments | tog-neo4j/scripts/ywretriever.py:24-35 | A missing CSV raises `FileNotFoundError`. Otherwise there is one document per row, with the row's name and id. |
| GraphStore.NeighborQuery | tog-neo4j/neo4j_connector.py:178-204 | The neighbour rows are distinct, at most 100, and each joins two nodes of the connector's partition over a relationship of that partition. Below the limit every such row is present, and a connector without a partition gets no rows. |
| GraphStore.ExactNames | tog-neo4j/neo4j_connector.py:106-118 | The exact search finds the name exactly when a node of the partition carries it. |
| GraphStore.FuzzyNames | tog-neo4j/neo4j_connector.py:134-146 | The fuzzy search yields at most one name, of a partition node, whose lower-cased form contains the lower-cased keyword. |
| GraphStore.FirstName | tog-neo4j/neo4j_connector.py:138-146 | Finds the first name satisfying the predicate, or shows that none does. |
| GraphStore.Isolation | tog-neo4j/neo4j_connector.py:189-201 | Nothing outside a connector's partition changes any of its lookups. |
| GraphStore.AllRowsMatches | tog-neo4j/neo4j_connector.py:190-194 | A row is produced exactly when a relationship of the partition joins the named node to a partition node. |
| CypherFilter.MatchAtSound | tog-neo4j/neo4j_connector.py:80 | Any match the scanner reports at a position is a match of the node-pattern regular expression there, and it captures the node variable. |
| CypherFilter.MatchAtComplete | tog-neo4j/neo4j_connector.py:80 | Every match of the node-pattern regular expression at a position is the one the scanner reports, so the scanner neither misses nor invents matches. |
| CypherFilter.FindAllFromSound | tog-neo4j/neo4j_connector.py:80 | Every variable `re.findall` yields is a non-empty word that some match at or after the start position captures. |
| CypherFilter.FindAllFromNoParen | tog-neo4j/neo4j_connector.py:80 | A text without `(` after the start position yields no variable. |
| CypherFilter.NodeVarsFindsFirst | tog-neo4j/neo4j_connector.py:80-83 | A node pattern at the very start of a query is always found, and its variable comes first. |
| CypherFilter.ConjunctInjective | tog-neo4j/neo4j_connector.py:86 | Different variables give different `x.grag_id = $grag_id` conjuncts. |
| CypherFilter.Filters | tog-neo4j/neo4j_connector.py:86 | There is exactly one conjunct per distinct node variable, with no repeats. A variable is filtered exactly when the query mentions it. |
| CypherFilter.InsertBefore | tog-neo4j/neo4j_connector.py:91-95 | Splitting once at a keyword and re-joining puts the clause and a blank right before the keyword's first occurrence. The rest of the query is kept. |
| CypherFilter.AddFilter | tog-neo4j/neo4j_connector.py:61-97 | The query is unchanged without a partition or without node variables. Otherwise the filter clause goes before the first `RETURN`, else before the first `WITH`, else at the end, and nothing else changes. |
| CypherFilter.ClauseOccurs | tog-neo4j/neo4j_connector.py:82-97 | Whenever there is a partition and a node variable, the rewritten query contains the filter clause. |
| CypherFilter.ComplexQueryText | tog-neo4j/neo4j_connector.py:289 | A custom query is filtered whenever there is a partition and a node variable. The clause opens with `AND` exactly when the text already contains `WHERE`. |
| CypherFilter.ParamsWithGragId | tog-neo4j/neo4j_connector.py:99-104 | A partition's id is always passed as `grag_id`. Every other given parameter is kept unchanged, and no parameter is invented. |
| ConnectorCache.CacheKey | tog-neo4j/core/neo4j_db.py:142 | The cache key is `connector_` followed by the partition id. |
| ConnectorCache.CacheKeyInjective | tog-neo4j/core/neo4j_db.py:142 | Two partitions share a cache key exactly when they are the same partition. |
| ConnectorCache.Lookup | tog-neo4j/core/neo4j_db.py:144-145 | A lookup finds nothing exactly when the key is absent. A hit is an entry of the cache. |
| ConnectorCache.GetConnector | tog-neo4j/core/neo4j_db.py:140-155 | A cached partition returns its connector and leaves the cache alone. Otherwise the new connector is added under the partition's key, and a failing connection raises its own error with the cache left as it was. |
| ConnectorCache.GetConnectorValid | tog-neo4j/core/neo4j_db.py:144-153 | The cache stays a dictionary, and afterwards it holds the key of the partition asked for. |
| ConnectorCache.GetConnectorIdempotent | tog-neo4j/core/neo4j_db.py:144-145 | Asking twice for one partition returns the same connector the second time without connecting. |
| ConnectorCache.ServeAtMostOne | tog-neo4j/core/neo4j_db.py:140-155 | However many requests are served, every partition has at most one cached connector. |
| ConnectorCache.CloseAll | tog-neo4j/core/neo4j_db.py:157-161 | Every cached connector is closed once, in insertion order, and the cache ends up empty. |
| ConnectorCache.CloseAllForgets | tog-neo4j/core/neo4j_db.py:157-161 | After closing everything, the next request for any partition connects afresh. |
| RelationType.SpacesToUnderscores | tog-neo4j/insert_to_neo4j.py:200 | The length is kept. Exactly the spaces become `_`. |
| RelationType.Sanitize | tog-neo4j/insert_to_neo4j.py:201 | The length is kept. Alphanumerics and `_` are upper-cased and every other character becomes `_`. |
| RelationType.ReplacePairs | tog-neo4j/insert_to_neo4j.py:204 | One replace pass never lengthens the text, shortens any text that has `__`, and keeps the character set. |
| RelationType.Collapse | tog-neo4j/insert_to_neo4j.py:203-204 | The loop ends with no `__` left and keeps the character set. |
| RelationType.StripUnderscores | tog-neo4j/insert_to_neo4j.py:206 | The result is no longer than the input and neither starts nor ends with `_`. |
| RelationType.StripUnderscoresSlice | tog-neo4j/insert_to_neo4j.py:206 | The result is one contiguous slice of the input. |
| RelationType.Core | tog-neo4j/insert_to_neo4j.py:200-206 | The sanitised text holds only upper-case letters, digits and `_`. It has no `__` and no leading or trailing `_`. |
| RelationType.Normalize | tog-neo4j/insert_to_neo4j.py:195-214 | A blank predicate gives `RELATED_TO`. Every result is a well-formed relationship type: non-empty, only upper-case alphanumerics and single `_`, starting with neither a digit nor `_`. |
| RelationType.NormalizeWellFormed | tog-neo4j/insert_to_neo4j.py:195-214 | A well-formed type is its own normal form. |
| RelationType.NormalizeIdempotent | tog-neo4j/insert_to_neo4j.py:195-214 | Normalising twice is the same as normalising once. |
| TripleImport.FirstPresent | tog-neo4j/insert_to_neo4j.py:142-143 | The subject or object key is the first candidate the sample holds. There is none exactly when it holds no candidate. |
| TripleImport.MatchField | tog-neo4j/insert_to_neo4j.py:150-152 | Endpoints match on `id` exactly when the sample's subject looks like a generated id (dashed and longer than 20, or 32 characters), else on `name`. |
| TripleImport.NormalizeCell | tog-neo4j/insert_to_neo4j.py:159-160 | A string predicate gets its normal form. Any other value is `RELATED_TO` when falsy, and otherwise raises. Every type produced is well-formed. |
| TripleImport.Entry | tog-neo4j/insert_to_neo4j.py:158-172 | A triple's entry exists exactly when its predicate normalises and both endpoint keys are present. It carries the endpoints, then weight 0.0, description "" and grag_id "" as defaults. |
| TripleImport.EntriesSucceed | tog-neo4j/insert_to_neo4j.py:158-172 | The loop over the triples succeeds exactly when every triple's entry does. |
| TripleImport.EntriesContent | tog-neo4j/insert_to_neo4j.py:158-172 | A successful loop yields every triple's entry, in triple order. |
| TripleImport.KeyIndex | tog-neo4j/insert_to_neo4j.py:162 | Finds the bucket of a type, or shows the type has none yet. |
| TripleImport.GroupAllBatches | tog-neo4j/insert_to_neo4j.py:157-172 | The grouping loop builds exactly the reference batches: one per distinct type, in first-seen order, each holding that type's rows in triple order. |
| TripleImport.BatchesPartition | tog-neo4j/insert_to_neo4j.py:157-172 | Every triple lands in exactly one batch: the batch sizes add up to the number of triples. |
| TripleImport.ImportRelationships | tog-neo4j/insert_to_neo4j.py:136-192 | No triples means nothing to import. Unrecognised subject or object fields import nothing. Otherwise the import raises exactly when the entry loop raises, with that error, and on success it sends the reference batches under the sample's match field. |
| GraphExtract.NewExtractor | tog-neo4j/deal_graph.py:25-35 | A blank partition id raises `ValueError`. Otherwise the id is stored stripped and non-empty, and the output directory defaults to `<input>/extracted_data`. |
| GraphExtract.IntOr | tog-neo4j/deal_graph.py:68 | A missing or NaN cell gives the default. Any other cell goes through `int()`, which raises exactly when `int()` of that cell raises, and otherwise gives an int's text. |
| GraphExtract.FloatOr | tog-neo4j/deal_graph.py:100 | A missing or NaN cell gives the default. Any other cell goes through `float()`, which raises exactly for text that is no float literal, and otherwise gives a float's text. |
| GraphExtract.EntityOf | tog-neo4j/deal_graph.py:62-72 | An entity exists exactly when the row's degree converts, and otherwise the degree's error is raised. It is keyed by its id, with `title` standing in for a missing name and `ENTITY` for a missing type. Its degree is an int, and it is tagged with the partition. |
| GraphExtract.Put | tog-neo4j/deal_graph.py:63 | Assigning a present key overwrites it in place. A new key is appended. |
| GraphExtract.ExtractEntities | tog-neo4j/deal_graph.py:60-73 | Extraction succeeds exactly when every row's degree converts. Every entity sits under its own id and carries the partition. |
| GraphExtract.ExtractEntitiesFirstError | tog-neo4j/deal_graph.py:61-68 | A failing extraction raises the error of the first row whose degree does not convert. |
| GraphExtract.ExtractEntitiesKeys | tog-neo4j/deal_graph.py:60-73 | The dictionary's keys are the distinct ids, in order of first appearance. |
| GraphExtract.ExtractEntitiesLastWins | tog-neo4j/deal_graph.py:61-72 | For a repeated id, the entity of the last row with that id is the one kept. |
| GraphExtract.LookupEntity | tog-neo4j/deal_graph.py:90-91 | The entity under a key, or nothing exactly when the key is absent. |
| GraphExtract.NameOf | tog-neo4j/deal_graph.py:90-91 | An endpoint with no entity is named by its own id. |
| GraphExtract.TripleOf | tog-neo4j/deal_graph.py:86-106 | A triple exists exactly when the row's weight, degrees and rank all convert, and a weight that does not convert raises first. A triple is numbered `rel_<row>` and tagged with the partition, and its endpoint ids are the row's source and target. The predicate falls back to `RELATED_TO` and the weight to 1.0. The weight is a float, and the degrees and rank are ints. |
| GraphExtract.ExtractTriples | tog-neo4j/deal_graph.py:84-108 | Extraction succeeds exactly when every row converts. There is then one triple per relationship row. |
| GraphExtract.ExtractTriplesContent | tog-neo4j/deal_graph.py:85-107 | Triple `i` is the triple of relationship row `i`, numbered by that position. |
| GraphExtract.ExtractTriplesFirstError | tog-neo4j/deal_graph.py:85-104 | A failing extraction raises the error of the first row with a field that does not convert. |
| GraphExtract.Run | tog-neo4j/deal_graph.py:125-163 | The run succeeds exactly when both tables load and every row of both converts. The counts match the distinct entity ids and the relationship rows, and the file is `<output>/graph_data.json`. |
| GraphExtract.Main | tog-neo4j/deal_graph.py:166-194 | A blank id gives `None`. Otherwise the result is the output path exactly when both tables load and every row converts. |
| Numbers.Trunc | tog-neo4j/deal_graph.py:68 | `int()` of a float truncates toward zero: the result lies within one of the value, on the side of zero. |
| Numbers.IntText | tog-neo4j/deal_graph.py:68 | `int()` of text succeeds exactly when the stripped text, after one optional sign, is a non-empty run of ASCII digits. |
| Numbers.IntCell | tog-neo4j/deal_graph.py:68 | `int()` of a cell gives an int's text. Text converts exactly when `int()` accepts it, a number converts exactly when it is finite, and `None` raises. |
| Numbers.IntCellOfInt | tog-neo4j/deal_graph.py:68 | An int passes through `int()` unchanged. |
| Numbers.IntTextRoundTrip | tog-neo4j/deal_graph.py:68 | `int()` reads an int's own text back. |
| Numbers.IntCellTruncates | tog-neo4j/deal_graph.py:102-104 | A float `n.f` converts to `n`. |
| Numbers.IntCellTruncatesNegative | tog-neo4j/deal_graph.py:102-104 | A float `-n.f` converts to `-n`: truncation goes toward zero, not down. |
| Numbers.FloatCell | tog-neo4j/deal_graph.py:100 | `float()` of a cell never gives an int's text. Every number converts, text converts exactly when it is a float literal or a spelling of NaN or infinity, and `None` raises. |
| Numbers.FloatCellIdempotent | tog-neo4j/deal_graph.py:100 | Converting a converted weight again changes nothing. |
| Numbers.IntOfFloatOfInt | tog-neo4j/deal_graph.py:100-104 | `float(n)` of an int up to 2^53 is `n.0`, and `int()` of that is `n` again. |
| Records.NonFiniteTruthy | tog-neo4j/insert_to_neo4j.py:197 | NaN and the infinities are truthy, like every non-zero float. |
| TripleImport.NormalizeCellNonFinite | tog-neo4j/insert_to_neo4j.py:159-160 | A NaN or infinite predicate is truthy, so it raises like any other non-text value. |
| GraphExtract.ExtractedTriplesImport | tog-neo4j/deal_graph.py:93-106 | Extracted triples always import: the importer recognises `subject_id` and `object_id`, and every batch row carries the extractor's partition id. |
| GraphExtract.ExtractedEntries | tog-neo4j/deal_graph.py:93-106 | Every saved triple gives an importer entry tagged with that triple's partition id. |
| YwAudit.MergeRiskLevel | tog-neo4j/services/yw_service.py:1136-1141 | The merged level is one of the two inputs' levels, at least as high as both. Unknown levels count as `none`. |
| YwAudit.MergeCommutative | tog-neo4j/services/yw_service.py:1136-1141 | Merging is symmetric. |
| YwAudit.MergeIdempotent | tog-neo4j/services/yw_service.py:1136-1141 | Merging a level with itself only normalises it. |
| YwAudit.MergeAssociative | tog-neo4j/services/yw_service.py:1136-1141 | Merging three levels gives the same result in either grouping. |
| YwAudit.MergeNoneNeutral | tog-neo4j/services/yw_service.py:1136-1141 | `none` is neutral for merging. |
| YwAudit.ShouldIgnoreEvent | tog-neo4j/services/yw_service.py:160-194 | An event is ignored exactly when its content decodes to an object whose `state` is `false`. Undecodable content is processed. A decoded list or text holding `"state"` raises, since the handler does not catch it. |
| YwAudit.FencedTextOfJson | tog-neo4j/services/yw_service.py:1118-1120 | With a ```` ```json ```` fence, the decoder reads what follows it up to the next fence, trimmed. |
| YwAudit.FencedTextOfPlain | tog-neo4j/services/yw_service.py:1121-1122 | With only plain fences, the decoder reads what lies between the first two, trimmed. |
| YwAudit.JsonFencedReply | tog-neo4j/services/yw_service.py:1115-1126 | A reply with one ```` ```json ```` block decodes exactly the block's trimmed body. |
| YwAudit.PlainFencedReply | tog-neo4j/services/yw_service.py:1115-1126 | A reply with one plain fenced block decodes exactly the block's trimmed body. |
| YwAudit.UnfencedReply | tog-neo4j/services/yw_service.py:1115-1126 | A reply without back-ticks is decoded whole, trimmed. |
| YwAudit.Classify | tog-neo4j/services/yw_service.py:440-444 | A decoded reply is readable only as a non-empty object, which is what the decoder returned. |
| YwAudit.ReadReply | tog-neo4j/services/yw_service.py:428-444 | A reply is raised exactly when the model call raises, and empty exactly when the model returns "". A readable reply is a non-empty object. |
| YwAudit.FirstRelatedFrom | tog-neo4j/services/yw_service.py:455-458 | The fuzzy match is the first listed process containing, or contained in, the proposed name. None is returned exactly when no process is related. |
| YwAudit.ProposedName | tog-neo4j/services/yw_service.py:444-450 | A proposed name comes only from a readable reply, and is neither empty nor `"null"`. |
| YwAudit.IdentifyProcess | tog-neo4j/services/yw_service.py:388-466 | An identified process is always listed. Without a proposed name there is none. A listed name is taken as is, and an unlisted one gives the first related listed process. |
| YwAudit.DefaultCheck | tog-neo4j/services/yw_service.py:574-579 | A process check that cannot read its reply keeps the operation in the process, with no risk. |
| YwAudit.CheckFromObject | tog-neo4j/services/yw_service.py:581-595 | A readable check reports exactly the four fields, copied from the reply. A missing `is_in_process` means "not in the process". |
| YwAudit.CheckInProcess | tog-neo4j/services/yw_service.py:468-599 | An unreadable, empty or failed reply keeps the operation in the process with no risk. A readable reply is copied field by field. |
| YwAudit.RiskAudit | tog-neo4j/services/yw_service.py:704-735 | An audit always has exactly the three fields. When the model call raises, risk and a medium level are reported exactly when the lower-cased content holds a danger keyword. |
| YwAudit.AlarmWithoutModel | tog-neo4j/services/yw_service.py:726-735 | With the model unreachable, an audit alarms exactly when the content holds a danger keyword. |
| YwAudit.OutOfProcessCode | tog-neo4j/services/yw_service.py:322-384 | An operation leaving its process gets the severe code 300001 exactly when either report has a risk and either level is medium or high. Otherwise it gets the minor code 200001. |
| YwAudit.Followup | tog-neo4j/services/yw_service.py:299-310 | An operation in its process alarms exactly when its audit does. One outside gets the out-of-process code. |
| YwAudit.UnreadableCheckStaysInProcess | tog-neo4j/services/yw_service.py:574-579 | A check reply that cannot be read never sends the operation down the out-of-process path. |
| YwAudit.QuietCheckDefersToAudit | tog-neo4j/services/yw_service.py:330-347 | When the process check reports no risk and a low level, the severe alarm depends on the audit alone. |
| YwAudit.HistoryWindowZeroKeepsAll | tog-neo4j/services/yw_service.py:1098 | With a limit of 0, the slice as written keeps every record instead of none. |
| YwAudit.HistoryWindow | tog-neo4j/services/yw_service.py:1098 | The window is the last `min(limit, n)` records. |
| YwAudit.HistoryWindowAgrees | tog-neo4j/services/yw_service.py:1098 | For every positive limit, the slice as written is already the intended window. |
| YwAudit.HistoryItems | tog-neo4j/services/yw_service.py:1101-1105 | There is one line per windowed record, numbered from 1, carrying that record's summary. |
| YwAudit.HistorySummary | tog-neo4j/services/yw_service.py:1079-1113 | A failing store gives the error text and no records give the no-history text. The window is the corrected one (see Findings). |
| YwAudit.HistorySummaryListsWindow | tog-neo4j/services/yw_service.py:1096-1108 | When every record of the last `min(limit, n)` has a summary, the text is the header counting them followed by their summaries, numbered from 1, oldest first. For a limit of 0 this is the corrected window (see Findings). |
| YwAudit.HistorySummaryMissing | tog-neo4j/services/yw_service.py:1101-1113 | A record of that window without a summary turns the whole text into the error text. |
| AuditService.OrNull | tog-neo4j/services/audit_service.py:34-35 | A missing value becomes `null`. A present one becomes its text. |
| AuditService.BuildResponseData | tog-neo4j/services/audit_service.py:20-36 | The response data has exactly `equipment_asset`, `alarm` and `alarm_time`, in that order, holding the session id and the two optional values. |
| AuditService.RFind | tog-neo4j/services/audit_service.py:89 | Gives the last index of the character, or -1 exactly when it is absent. |
| AuditService.Splitext | tog-neo4j/services/audit_service.py:89 | The stem and extension re-join to the path. The extension is empty, or a dot followed by neither a dot nor a slash. |
| AuditService.SplitextOfName | tog-neo4j/services/audit_service.py:89 | A name with a non-dot character before its last dot splits at that dot. |
| AuditService.SplitextHidden | tog-neo4j/services/audit_service.py:89 | A hidden file name such as `.bashrc` has no extension. |
| AuditService.MimeOf | tog-neo4j/services/audit_service.py:90-96 | Each listed extension maps to its image type, and anything unlisted maps to JPEG. |
| AuditService.MimeType | tog-neo4j/services/audit_service.py:89-96 | A name without a dot is JPEG, and every name gets one of the four image types. |
| AuditService.MimeTypeByExtension | tog-neo4j/services/audit_service.py:89-96 | Only the lower-cased extension decides the type. The stem never does. |
| AuditService.FileName | tog-neo4j/services/audit_service.py:86 | A given file name is used as is. |
| AuditService.UnnamedUploadIsJpeg | tog-neo4j/services/audit_service.py:86-96 | An unnamed upload, named after the clock, is always sent as JPEG. |
| AuditService.ParseDataUrl | tog-neo4j/services/audit_service.py:100 | A parsed `data:` URL re-assembles to the URL it came from. |
| AuditService.DataUrlRoundTrip | tog-neo4j/services/audit_service.py:100 | A media type without a comma comes back out of its `data:` URL, with the encoded data intact. |
| AuditService.ImageDataUrl | tog-neo4j/services/audit_service.py:86-100 | The screenshot URL reads back as the upload's image type and its encoded bytes. |
| AuditService.DefaultAudit | tog-neo4j/services/audit_service.py:461-486 | The fallback verdict reports a risk, at medium level, exactly when the lower-cased content holds a keyword. Otherwise the level is `none`. |
| AuditService.DefaultSummary | tog-neo4j/services/audit_service.py:488-497 | Each event type gets its fixed summary, and every summary ends in "操作". |
| AuditService.FirstOpen | tog-neo4j/services/audit_service.py:515-519 | Finds the first `{` or `[`, or shows that there is none. |
| AuditService.LastClose | tog-neo4j/services/audit_service.py:526-530 | Finds the last `}` or `]`, or shows that there is none. |
| AuditService.UnfenceReply | tog-neo4j/services/audit_service.py:547-574 | The fenced fallback yields only a non-empty, trimmed body. |
| AuditService.UnfencedReplyHasNoBody | tog-neo4j/services/audit_service.py:558-577 | Without a fence, the fallback has nothing to decode. |
| AuditService.JsonSlice | tog-neo4j/services/audit_service.py:513-537 | The slice runs from an opening to a closing bracket. There is none exactly when no opener precedes a closer. |
| AuditService.ParseJsonSlice | tog-neo4j/services/audit_service.py:501-581 | Without a slice there is no result. A slice that decodes is the result. A slice that fails to decode falls back to the fences: the fenced body's decoding is the result, or nothing when there is no fenced body. |
| AuditService.ProseAroundJson | tog-neo4j/services/audit_service.py:513-543 | JSON surrounded by bracket-free prose decodes to exactly that JSON. |
| AuditService.AuditAndSummary | tog-neo4j/services/audit_service.py:429-459 | The verdict always has the three audit fields. A failed or empty model reply falls back to the keyword verdict and the default summary. |
| AuditService.DefaultAuditAlarms | tog-neo4j/services/audit_service.py:461-486 | The keyword fallback alarms exactly when a keyword occurs. |
| AuditService.AlarmRulesAgree | tog-neo4j/services/audit_service.py:211-214 | When the level is present, this service's alarm rule agrees with the operations service's rule. |
| AuditService.AlarmRulesDifferWithoutLevel | tog-neo4j/services/audit_service.py:211-214 | Without a level the two rules differ: a bare risk alarms there and not here. |
| AuditService.AlarmPayload | tog-neo4j/services/audit_service.py:217-223 | The alarm record names the session and carries the level. |
| AuditService.RiskResponseWith | tog-neo4j/services/audit_service.py:210-249 | An alarm returns the given code with the alarm payload, unless its level is not text, which raises. No alarm returns code 200 with empty alarm fields, and the message names the process exactly when one is given. |
| AuditService.RiskResponseAsWritten | tog-neo4j/services/audit_service.py:229-233 | As written, an alarm is reported with code 30001. |
| AuditService.RiskResponse | tog-neo4j/services/audit_service.py:210-249 | With the corrected code, a response carries 300001 exactly when the audit alarms. |
| AuditService.AlarmCodeMismatch | tog-neo4j/services/audit_service.py:229-233 | For the content `rm -rf /`, the code as written reports a code other than 300001, where the corrected response reports 300001. |
| AuditService.LlmRiskAudit | tog-neo4j/services/audit_service.py:180-249 | When the model call raises, the audit still answers. With the corrected alarm code (see Findings), it reports 300001 exactly when the content holds a keyword. |
| AuditService.Operations | tog-neo4j/services/audit_service.py:273-288 | Unreadable records are skipped, so there are never more operations than records. When every record is readable, there is one operation per record. |
| AuditService.UnreadableSkipped | tog-neo4j/services/audit_service.py:274-288 | Records whose operation cannot be read contribute nothing. |
| AuditService.ImageSummaries | tog-neo4j/services/audit_service.py:282-286 | Image summaries come only from readable operations, and each carries a truthy summary. |
| AuditService.RecentRecords | tog-neo4j/services/audit_service.py:273 | The records considered are the last ten. |
| AuditService.NumberedSnoc | tog-neo4j/services/audit_service.py:294-295 | Numbering a list ends with its last item under the number after all the others. |
| AuditService.HistoryContext | tog-neo4j/services/audit_service.py:290-295 | The history block is empty exactly when there are no readable operations. Otherwise it shows the last five, numbered from 1. |
| AuditService.NewestShownLast | tog-neo4j/services/audit_service.py:294-295 | The newest operation is always the last line, numbered by how many are shown. |
| AuditService.ImageContext | tog-neo4j/services/audit_service.py:298-304 | The reference block is empty exactly when there are no image summaries. Otherwise it holds the last five between the header and the footer. |
| Envelopes.Default | tog-neo4j/models/schemas.py:28-30 | A bare envelope (in both copies of `R`) has code 200, the default message and no payload. |
| Envelopes.CodeOr | tog-neo4j/Response.py:54-55 | A code left at `None` falls back to the factory's own code. |
| Envelopes.Ok | tog-neo4j/Response.py:42-56 | `ok` keeps the message and data, and uses code 200 unless another code is given. |
| Envelopes.Fail | tog-neo4j/Response.py:59-73 | `fail` keeps the message and data, and uses code 500 unless another code is given. |
| Envelopes.Error | tog-neo4j/models/schemas.py:44-49 | `error` carries a payload exactly when the detail is non-empty text, and the payload then holds only `error_detail`. |
| Envelopes.NotFound | tog-neo4j/models/schemas.py:51-53 | The not-found envelope has code 404. |
| Envelopes.Unauthorized | tog-neo4j/models/schemas.py:55-57 | The unauthorised envelope has code 401. |
| Envelopes.ExplicitCodeWins | tog-neo4j/Response.py:42-91 | An explicit code always wins over every factory's default. |
| Envelopes.SetMessage | tog-neo4j/Response.py:121-124 | Only the message changes. |
| Envelopes.SetData | tog-neo4j/Response.py:126-129 | Only the data changes. |
| Envelopes.SetCode | tog-neo4j/Response.py:131-134 | Only the code changes. |
| Envelopes.SettersCommute | tog-neo4j/Response.py:121-134 | The setters touch disjoint fields, so chaining them in any order gives the same envelope. |
| Envelopes.ToResponse | tog-neo4j/Response.py:178-185 | The dictionary always has the code and message. It has `data` exactly when the payload is not `None`, and nothing else. |
| Envelopes.ToResponseRoundTrip | tog-neo4j/Response.py:178-185 | Dropping a `None` payload loses nothing: the envelope reads back from its dictionary. |
| GraphRagOutput.ScanUnmatched | tog-neo4j/utils/common.py:13-16 | Text where no match starts is copied unchanged by a substitution. |
| GraphRagOutput.ScanMatched | tog-neo4j/utils/common.py:13-16 | A match at the front is replaced and the scan resumes after it. |
| GraphRagOutput.ScanUnmatchedAll | tog-neo4j/utils/common.py:13-16 | When no match starts anywhere, the substitution returns its input. |
| GraphRagOutput.CodeRun | tog-neo4j/utils/common.py:12 | Gives the length of the leading run of digits and `;`. |
| GraphRagOutput.CodeTail | tog-neo4j/utils/common.py:12 | A non-empty tail of a colour code ends in `m`. |
| GraphRagOutput.ColourCode | tog-neo4j/utils/common.py:12 | A colour-code match starts with an escape or with `[`. |
| GraphRagOutput.ColourCodeAt | tog-neo4j/utils/common.py:12 | A colour code at the front of the text, with or without the escape character, is matched exactly. |
| GraphRagOutput.ColourCodeRemoved | tog-neo4j/utils/common.py:12-13 | Text followed by a colour code keeps only the text. |
| GraphRagOutput.CloseFrom | tog-neo4j/utils/common.py:14 | Finds the first `]` at or after a position, or shows there is none. |
| GraphRagOutput.Citation | tog-neo4j/utils/common.py:14 | A citation match starts with `[`. |
| GraphRagOutput.CitationAt | tog-neo4j/utils/common.py:14 | The first `]` after the `[Data: ` tag closes a citation. |
| GraphRagOutput.CitationRemoved | tog-neo4j/utils/common.py:14 | Text followed by a citation with a non-empty body keeps only the text. |
| GraphRagOutput.BlankLines | tog-neo4j/utils/common.py:16 | A blank-line match is all whitespace, starts and ends with a newline, and is at least two characters long. |
| GraphRagOutput.BlankLinesAt | tog-neo4j/utils/common.py:16 | The whole whitespace run between two newlines is matched. |
| GraphRagOutput.BlankLinesCollapsed | tog-neo4j/utils/common.py:16 | Two newlines around whitespace become exactly one blank line. |
| GraphRagOutput.CollapseKeepsFirst | tog-neo4j/utils/common.py:16 | Collapsing keeps a first character that is not a newline. |
| GraphRagOutput.CollapseKeepsLast | tog-neo4j/utils/common.py:16 | Collapsing keeps a last character that is not whitespace. |
| GraphRagOutput.CleanOutput | tog-neo4j/utils/common.py:10-17 | The cleaned output is trimmed. It is empty exactly when nothing but whitespace remains once colour codes and citations are removed. |
| GraphRagOutput.CleanPlainText | tog-neo4j/utils/common.py:10-17 | Plain single-line trimmed text without brackets or escapes comes back unchanged. |
| ResponseFormatter.Iterate | tog-neo4j/api_response_formatter.py:44-50 | A list iterates over its items. Numbers, booleans and `None` are not iterable. |
| ResponseFormatter.StepField | tog-neo4j/api_response_formatter.py:49 | `step[key]` succeeds exactly when the step is an object holding the key, and then gives that field. |
| ResponseFormatter.GenerateSteps | tog-neo4j/api_response_formatter.py:38-45 | There is one generated step per name, numbered from 1 in order. |
| ResponseFormatter.StepLines | tog-neo4j/api_response_formatter.py:48-51 | A rendering that succeeds has one line per step. |
| ResponseFormatter.StepLinesSucceed | tog-neo4j/api_response_formatter.py:48-51 | Rendering succeeds exactly when every step is an object with a number and a name. |
| ResponseFormatter.StepLinesContent | tog-neo4j/api_response_formatter.py:48-51 | Line `i` is the line format applied to the number and the name of step `i`. |
| ResponseFormatter.GeneratedStepFields | tog-neo4j/api_response_formatter.py:38-44 | A step generated from a name is an object whose number and name read back as given. |
| ResponseFormatter.GeneratedLines | tog-neo4j/api_response_formatter.py:38-51 | Steps generated from names always render, under any line format: line `i` is the format applied to number `i + 1` and the `i`-th name, in order. |
| ResponseFormatter.ChosenSteps | tog-neo4j/api_response_formatter.py:34-45 | Truthy `structured_steps` are used as given, and raise when they are not iterable. |
| ResponseFormatter.OperationResponse | tog-neo4j/api_response_formatter.py:12-59 | A failed result always formats, with the answer from `answer`, else `message`, else the fixed text, and its `error_message`. A successful one keeps its own `answer` when present. Both carry the question and the success flag. |
| ResponseFormatter.GeneratedStepsAnswer | tog-neo4j/api_response_formatter.py:37-57 | Plain step names, with no structured steps and no ready answer, become the answer `步骤1: …`, one line per name in order. |
| ResponseFormatter.JsonApi | tog-neo4j/api_response_formatter.py:88-104 | The API form exists exactly when the operation response does, with exactly four keys. Its data is present exactly on success, and its error only on failure. |
| ResponseFormatter.FrontendDisplay | tog-neo4j/api_response_formatter.py:62-85 | A failure gives the banner with the message. Missing steps give the fixed notice, and non-object steps raise. Otherwise the text opens with the operation heading. |
| ResponseFormatter.ConcatNonEmpty | tog-neo4j/api_response_formatter.py:82-83 | Markdown step lines are never empty, so neither is their concatenation. |
| HybridQuery.Shown | tog-neo4j/services/query_hybrid_service.py:53-56 | An answer shown in the merging prompt is never empty: a missing answer shows the placeholder. |
| HybridQuery.Longer | tog-neo4j/services/query_hybrid_service.py:74 | The stand-in is the longer answer, the GraphRAG one on a tie. |
| HybridQuery.Query | tog-neo4j/services/query_hybrid_service.py:21-85 | The query fails exactly when neither method answered. Otherwise it succeeds with both answers unchanged, and the final answer is the merge, or the longer answer when the merge raises. |
| HybridQuery.NoAnswersNeedNoLlm | tog-neo4j/services/query_hybrid_service.py:41-46 | Without answers the merging model is never consulted. |
| HybridQuery.FailedToGStillSucceeds | tog-neo4j/services/query_hybrid_service.py:29-46 | A failed ToG run still carries a message as its answer, so the hybrid query succeeds. |
| HybridQuery.ToGOutcomeAnswered | tog-neo4j/tog_reasoning.py:431-456 | Every failed ToG outcome has a non-empty answer. |
| Routing.MethodNamesDistinct | tog-neo4j/agents/impl/auto_query_agent.py:224-232 | Distinct methods have distinct names, so a stored name identifies the method. |
| Routing.ComplexityOf | tog-neo4j/agents/impl/auto_query_agent.py:218-220 | The label is `simple` exactly when the lower-cased reply mentions it, and `complex` exactly when it mentions complex but not simple. It is `moderate` otherwise. |
| Routing.ComplexityOfLabel | tog-neo4j/agents/impl/langgraph_agent.py:303-308 | Reading back a bare label gives that label. |
| Routing.ExplicitMethod | tog-neo4j/agents/impl/auto_query_agent.py:225-228 | A question naming ToG or 思维图 selects ToG before anything else. No method is named exactly when none of the five markers occurs. |
| Routing.ByComplexity | tog-neo4j/agents/impl/auto_query_agent.py:230-232 | Simple questions go to GraphRAG and complex ones to the hybrid method. |
| Agents.NewContext | tog-neo4j/agents/base.py:19-31 | A history or metadata left at `None` becomes empty. Everything else is kept. |
| Agents.NewResult | tog-neo4j/agents/base.py:34-46 | Metadata left at `None` becomes empty. Everything else is kept. |
| Agents.FailedResult | tog-neo4j/agents/base.py:34-46 | A failed result has no payload, the given message and the error. |
| Agents.NewAgent | tog-neo4j/agents/base.py:52-56 | A new agent is idle and has no tools. |
| Agents.RegisterTool | tog-neo4j/agents/base.py:68-70 | The tool goes to the end of the list, and nothing else changes. |
| Agents.CapabilitiesOf | tog-neo4j/agents/base.py:72-78 | The capabilities report the agent's name, description and tools. |
| Agents.RegisteredToolsListed | tog-neo4j/agents/base.py:68-78 | Tools registered one by one are listed in registration order. |
| Agents.ListAgents | tog-neo4j/agents/registry.py:27-29 | There is one name per stored agent, in insertion order. |
| Agents.IndexOf | tog-neo4j/agents/registry.py:25 | Finds the first agent with the name, or shows that there is none. |
| Agents.GetAgent | tog-neo4j/agents/registry.py:23-25 | Gives nothing exactly when the name is not listed, and otherwise a stored agent of that name. |
| Agents.Register | tog-neo4j/agents/registry.py:15-20 | A new name is appended, and a known name keeps its place. The agent is then what the name retrieves, and every other name is unaffected. |
| Agents.RegisterValid | tog-neo4j/agents/registry.py:15-20 | Every registration keeps one agent per name. |
| Agents.RegisterAllNames | tog-neo4j/agents/registry.py:15-29 | After registering a list of agents, the registry lists each distinct name once, in order of first registration. |
| Agents.RegisterAllValid | tog-neo4j/agents/registry.py:15-20 | A registry built by registrations holds each name once. |
| Agents.RegisterAllLastWins | tog-neo4j/agents/registry.py:17-20 | The agent stored under a name is the last one registered under it. |
| Agents.FindSuitable | tog-neo4j/agents/registry.py:31-39 | The suitable agent is the first, in registration order, that can handle the context. There is none exactly when no agent can. |
| Agents.AllCapabilities | tog-neo4j/agents/registry.py:41-46 | There is one capability entry per registered name, in registration order. |
| Agents.CapabilitiesMatchRegistry | tog-neo4j/agents/registry.py:41-46 | The capability table's keys are exactly the registered names. Each describes the agent `get_agent` returns. |
| Planner.AgentLines | tog-neo4j/agents/planner.py:75-78 | An agent contributes its name-and-description line, then a tools line exactly when it lists tools. |
| Planner.CapabilityLines | tog-neo4j/agents/planner.py:74-78 | There is one line per agent plus one per agent with tools. |
| Planner.LinesWithoutTools | tog-neo4j/agents/planner.py:72-79 | Agents without tools give exactly one line each, in registry order. |
| Planner.GroupStart | tog-neo4j/agents/planner.py:83 | The captured word starts after the blanks that follow the tag. |
| Planner.AgentWord | tog-neo4j/agents/planner.py:83-85 | A captured agent name is a non-empty run of word characters. |
| Planner.FirstAgentMatch | tog-neo4j/agents/planner.py:83 | `re.search` finds the first position where `AGENT:` followed by a word matches, in any letter case. None is found exactly when no position matches. |
| Planner.FirstMentioned | tog-neo4j/agents/planner.py:88-91 | The fallback gives the first known agent whose lower-cased name occurs in the lower-cased reply. There is none exactly when no known name occurs. |
| Planner.ParseAgentName | tog-neo4j/agents/planner.py:81-93 | The name is the word after the first `AGENT:` tag. Without a tag it is the first known agent mentioned, and only then is it guaranteed to be a registered name. |
| Planner.WordIsNotSpace | tog-neo4j/agents/planner.py:83 | A word character is never a blank, so the blank run and the word cannot overlap. |
| Planner.AgentLineRoundTrip | tog-neo4j/agents/planner.py:27-28 | A reply in the requested format `AGENT: <name>` reads back exactly that name. |
| Planner.LineEnd | tog-neo4j/agents/planner.py:98 | `.+` stops at the first newline. |
| Planner.ParamsGroup | tog-neo4j/agents/planner.py:98-100 | The parameter group is the rest of the line after the first `PARAMS:` tag and its blanks. It is non-empty and starts with a non-blank. A reply without the tag has no group. |
| Planner.Assignment | tog-neo4j/agents/planner.py:102-104 | An item assigns exactly when it holds `=`. It then splits at the first `=`, and key and value are trimmed. |
| Planner.AssignKeys | tog-neo4j/agents/planner.py:101-104 | The parsed keys are exactly the keys some item assigns. |
| Planner.AssignLastWins | tog-neo4j/agents/planner.py:101-104 | Each key maps to the value of the last item assigning it. |
| Planner.ParseParams | tog-neo4j/agents/planner.py:95-105 | No group gives no parameters. Otherwise the group's comma-separated assignments are applied in order. |
| Planner.Assignments | tog-neo4j/agents/planner.py:101-103 | There is one possible assignment per comma-separated item, in order. |
| Planner.ParamsLineRoundTrip | tog-neo4j/agents/planner.py:30-31 | A reply `PARAMS: key=value` in the requested format reads back exactly that one parameter. |
| Planner.SingleItemParams | tog-neo4j/agents/planner.py:99-104 | A group with one assigning item gives exactly that parameter. |
| Planner.ParamsGroupOfLine | tog-neo4j/agents/planner.py:98-100 | The group of `PARAMS: <item>` is the item. |
| Planner.AssignmentOfItem | tog-neo4j/agents/planner.py:101-104 | A clean `key=value` item is one comma-free item that assigns the value to the key. |
| Planner.AsJson | tog-neo4j/agents/planner.py:61 | Parameters enter the metadata as text values under the same keys. |
| Planner.Plan | tog-neo4j/agents/planner.py:34-70 | A failing model plans nothing and changes nothing. A named agent is the parsed name, and the metadata then gains the parsed parameters, which override existing keys. With no usable name the metadata is untouched. |
| AutoQuery.NewAutoQueryAgent | tog-neo4j/agents/impl/auto_query_agent.py:15-27 | The agent is idle and lists its three query tools in registration order. |
| AutoQuery.LowerConcat | tog-neo4j/agents/impl/auto_query_agent.py:32 | Lower-casing distributes over concatenation. |
| AutoQuery.KeywordQuestionHandled | tog-neo4j/agents/impl/auto_query_agent.py:29-32 | Any question that contains a query keyword, in either letter case, is handled. |
| AutoQuery.AnalyzeComplexity | tog-neo4j/agents/impl/auto_query_agent.py:214-222 | The label is one of the three. Any exception gives `moderate`, and otherwise the reply decides. |
| AutoQuery.SelectMethod | tog-neo4j/agents/impl/auto_query_agent.py:224-232 | A method named in the question wins. Otherwise the complexity label decides. |
| AutoQuery.RunQuery | tog-neo4j/agents/impl/auto_query_agent.py:111-151 | A tool that raises gives exactly `success=False` and the error text. Otherwise the tool's result is returned with `method` set to the chosen method's name and every other key kept. |
| AutoQuery.Len | tog-neo4j/agents/impl/auto_query_agent.py:70 | `len` of a text is its length. Numbers, booleans and `None` have no length. |
| AutoQuery.AnswerOf | tog-neo4j/agents/impl/auto_query_agent.py:68 | A truthy `answer` is used, else `final_answer`, else "". |
| AutoQuery.Accepted | tog-neo4j/agents/impl/auto_query_agent.py:67-70 | A result is accepted exactly when it succeeded and its answer is longer than 20. The test raises exactly when a successful, truthy answer has no length. |
| AutoQuery.LongAnswerTruthy | tog-neo4j/agents/impl/auto_query_agent.py:70 | An answer longer than 20 is truthy. |
| AutoQuery.BackendRecord | tog-neo4j/utils/java_backend.py:55-86 | The backend's knowledge-base records carry only `graph_key`, `name` and `intro`. |
| AutoQuery.Fallbacks | tog-neo4j/agents/impl/auto_query_agent.py:94 | The fallback list keeps, in order, exactly the records whose `grag_id` differs from the requested id. |
| AutoQuery.BackendRecordsNeverExcluded | tog-neo4j/agents/impl/auto_query_agent.py:94 | Backend records have no `grag_id`, so a requested id never excludes any of them. |
| AutoQuery.Verdicts | tog-neo4j/agents/impl/auto_query_agent.py:160-179 | There is one verdict per fallback record: whether its query is accepted. |
| AutoQuery.FirstAccepted | tog-neo4j/agents/impl/auto_query_agent.py:160-200 | The loop stops at the first accepted record, raises at the first failing verdict, and finds nothing exactly when every verdict rejects. |
| AutoQuery.JoinNames | tog-neo4j/agents/impl/auto_query_agent.py:204 | Joining succeeds exactly when every name is text. |
| AutoQuery.NamesOf | tog-neo4j/agents/impl/auto_query_agent.py:204 | There is one name per record, "未知" when missing. |
| AutoQuery.QueryMultipleKbs | tog-neo4j/agents/impl/auto_query_agent.py:153-211 | The first accepted record's answer is returned as a fallback success. When none is accepted, the failure counts the records and lists their names. It raises exactly when a verdict or the name join raises. |
| AutoQuery.Execute | tog-neo4j/agents/impl/auto_query_agent.py:34-109 | An accepted requested knowledge base answers directly. Otherwise the fallback list is queried, or a fixed failure is given when the list is empty. A raising acceptance test propagates. |
| AutoQuery.SuccessHasLongAnswer | tog-neo4j/agents/impl/auto_query_agent.py:67-84 | Every successful result carries an answer longer than 20. |
| AutoQuery.RequestedKbQueriedAgain | tog-neo4j/agents/impl/auto_query_agent.py:86-109 | With backend records, a requested knowledge base that gives no accepted answer is queried again among the fallbacks. |
| LangGraphAgent.NewLangGraphAgent | tog-neo4j/agents/impl/langgraph_agent.py:39-43 | The agent registers no tools. |
| LangGraphAgent.ToolMethod | tog-neo4j/agents/impl/langgraph_agent.py:350-358 | A method name selects its own tool, and anything else selects the hybrid tool. |
| LangGraphAgent.AnalyzeNode | tog-neo4j/agents/impl/langgraph_agent.py:292-313 | The node raises exactly when the model call raises. Otherwise it stores the label read from the reply and nothing else. |
| LangGraphAgent.SelectNode | tog-neo4j/agents/impl/langgraph_agent.py:315-341 | Only the selected method changes. A method named in the question wins, and otherwise the complexity decides. |
| LangGraphAgent.SameChoiceAsAutoQuery | tog-neo4j/agents/impl/langgraph_agent.py:315-341 | Both agents pick the same method for the same question and label. |
| LangGraphAgent.PrimaryNode | tog-neo4j/agents/impl/langgraph_agent.py:343-371 | An answer is stored with its knowledge base recorded as attempted, and success is set when it mentions 成功 and is longer than 50. A raising tool stores "查询失败: " and the error, and counts one error. |
| LangGraphAgent.ValidateNode | tog-neo4j/agents/impl/langgraph_agent.py:373-385 | Only the success flag changes. It holds exactly when the answer is longer than 50 and mentions neither 失败 nor 错误. |
| LangGraphAgent.Remaining | tog-neo4j/agents/impl/langgraph_agent.py:394-397 | The remaining bases are exactly those whose `graph_key` has not been attempted. |
| LangGraphAgent.FallbackNode | tog-neo4j/agents/impl/langgraph_agent.py:387-427 | With nothing remaining nothing changes. Otherwise at most one fresh base from the list is recorded as attempted. Success is never lost, and an error is counted only when nothing was recorded. |
| LangGraphAgent.FinalNode | tog-neo4j/agents/impl/langgraph_agent.py:429-436 | A successful state is kept. Otherwise the answer becomes the apology counting the attempts. |
| LangGraphAgent.ShouldFallback | tog-neo4j/agents/impl/langgraph_agent.py:440-449 | Validation follows exactly on success. The fallback follows exactly on failure with at most three errors and more than one base. |
| LangGraphAgent.AfterValidation | tog-neo4j/agents/impl/langgraph_agent.py:451-456 | The run is done exactly when the answer validated. |
| LangGraphAgent.AfterFallback | tog-neo4j/agents/impl/langgraph_agent.py:458-467 | The fallback repeats exactly while unsuccessful, with fewer attempts than bases and at most three errors. |
| LangGraphAgent.FallbackLoop | tog-neo4j/agents/impl/langgraph_agent.py:72-122 | When the loop ends it ends on the route's end, keeping the bases, the success and the earlier attempts. Running out of steps raises the recursion error. |
| LangGraphAgent.Finish | tog-neo4j/agents/impl/langgraph_agent.py:429-436 | The final node runs exactly on a run that did not raise. |
| LangGraphAgent.Primary | tog-neo4j/agents/impl/langgraph_agent.py:72-122 | The three fixed nodes raise exactly when the complexity call raises. |
| LangGraphAgent.Workflow | tog-neo4j/agents/impl/langgraph_agent.py:72-122 | A raising complexity call fails the run. A finished run either succeeded or carries the apology for its attempts. |
| LangGraphAgent.OneRoundSuffices | tog-neo4j/agents/impl/langgraph_agent.py:458-467 | With an attempt made and at most one base, the fallback loop ends after one round. |
| LangGraphAgent.WorkflowFinishes | tog-neo4j/agents/impl/langgraph_agent.py:72-122 | A run over at most one base never hits the recursion limit. It fails exactly when the complexity call raises. |
| LangGraphAgent.ApologyNotFound | tog-neo4j/agents/impl/langgraph_agent.py:429-436 | Every apology mentions 未找到. |
| LangGraphAgent.StartFor | tog-neo4j/agents/impl/langgraph_agent.py:155-180 | A per-base run starts with that base alone, already counted as attempted, with no success and no errors. |
| LangGraphAgent.Attempt | tog-neo4j/agents/impl/langgraph_agent.py:155-221 | A base yields a result exactly when it has an id, its run does not raise and the answer passes the acceptance test: non-blank past 20 characters, without 失败, 错误 or 未找到. |
| LangGraphAgent.FoundMeansSucceeded | tog-neo4j/agents/impl/langgraph_agent.py:186-215 | Every result the loop returns reports success. An unsuccessful run ends with the apology, which never passes the test. |
| LangGraphAgent.Attempts | tog-neo4j/agents/impl/langgraph_agent.py:155-221 | There is one outcome per base, in list order. |
| LangGraphAgent.FirstSome | tog-neo4j/agents/impl/langgraph_agent.py:155-221 | Finds the first present outcome, or shows that none is present. |
| LangGraphAgent.FoundListsKbTwice | tog-neo4j/agents/impl/langgraph_agent.py:166-180 | A successful per-base run records its base twice among the attempts: once at the start and once by the primary query. |
| LangGraphAgent.WorkflowKeepsAttempts | tog-neo4j/agents/impl/langgraph_agent.py:387-427 | Runs only append to the attempts the fixed nodes leave. |
| LangGraphAgent.SuccessRecordsPrimary | tog-neo4j/agents/impl/langgraph_agent.py:343-371 | A successful run over at most one base succeeded at the primary query, which appended the base's id. |
| LangGraphAgent.Crashed | tog-neo4j/agents/impl/langgraph_agent.py:280-288 | An exception gives an unsuccessful result carrying the fixed message and the error text. |
| LangGraphAgent.ExecuteAll | tog-neo4j/agents/impl/langgraph_agent.py:136-232 | No bases gives the fixed failure, and a base without `name` crashes with `'name'`. Otherwise the result is the first base's success, or the all-failed result. |
| LangGraphAgent.ExecuteAllSucceeded | tog-neo4j/agents/impl/langgraph_agent.py:136-232 | A result without an error comes from a successful run. |
| LangGraphAgent.CurrentKb | tog-neo4j/agents/impl/langgraph_agent.py:236-240 | The lookup raises exactly when some key is a list or a dictionary. Otherwise it finds the last base whose id matches, or none exactly when no id matches. |
| LangGraphAgent.NamedStart | tog-neo4j/agents/impl/langgraph_agent.py:240-252 | A named run starts with no attempts and with only the found base, if any. |
| LangGraphAgent.ExecuteNamed | tog-neo4j/agents/impl/langgraph_agent.py:233-288 | A raising lookup crashes the call. Otherwise the single run's outcome is reported, whatever it is. |
| LangGraphAgent.Execute | tog-neo4j/agents/impl/langgraph_agent.py:128-288 | A missing or `default` id queries every base the backend lists, and any other id queries the named base. |
| LangGraphAgent.NamedRunNeverFallsBack | tog-neo4j/agents/impl/langgraph_agent.py:233-278 | A named run whose base carries that id as its `graph_key` makes at most one attempt. |

## Left out

- I/O of every kind is left out, including Neo4j driver sessions, MySQL, files, subprocesses and HTTP. Each external call is a function parameter. A `Failure` result stands for a raised exception.
- LLM calls are uninterpreted `prompt -> Result<string>` functions, and prompts are structured values. The following are not modelled:
  - the prompt wording;
  - `temperature`;
  - the vision model;
  - the image bytes and their base64 encoding.
- `json.loads`/`json.dumps` are a decoding parameter over a small JSON datatype. A decoded object keeps its members in order. When a key is repeated, lookup returns the first occurrence.
- Retrieval scores are `real` values, and no FAISS or embedding arithmetic is modelled. A score only selects a printed marker, never the result.
- The wall-clock `execution_time` field is left out, as are logging, `print` and the `reasoning_history` list.
- The following are sequential: async, await and concurrency.
- Case mapping is ASCII only. Python's `lower`, `upper` and `re.IGNORECASE` also fold non-ASCII letters such as `ſ` and the Kelvin sign. A string containing such letters can therefore compare differently from the model.
- `\w` in the Cypher filter pattern is ASCII letters, digits, `_` and CJK ideographs, not the whole Unicode word class.
- Planner.AgentWord: `\w` is ASCII letters, digits, `_` and CJK ideographs. Python's Unicode word class also holds the letters and digits of other scripts (accented Latin, Greek, Cyrillic, full-width digits), so a name in those scripts is cut short or not captured.
- Planner.FirstAgentMatch: uses the same narrower `\w`, so a tag followed only by such letters is not found.
- Planner.ParseAgentName: uses the same narrower `\w`, so such a name falls through to the mention fallback.
- RelationType.Sanitize: `isalnum` is ASCII letters, digits and CJK ideographs, not Python's Unicode alphanumerics. Other scripts' letters become `_` here, and upper-casing is ASCII only.
- RelationType.Core: inherits the narrower `isalnum` from `Sanitize`.
- RelationType.Normalize: `isdigit` is ASCII only, so a type starting with a non-ASCII digit such as `²` gets no `REL_` prefix here. It also inherits the narrower `isalnum`.
- Numbers.IntText: accepts ASCII digits only. Python's `int()` also takes `_` between digits and non-ASCII decimal digits.
- Numbers.IntCell: reads a number cell as the exact decimal its text denotes, without IEEE-754 double rounding. For a value a double cannot hold exactly, Python truncates the rounded double instead: `int(1e23)` is 99999999999999991611392 there and 10^23 here.
- Numbers.IntOfFloatOfInt: is stated for ints up to 2^53 only. Above that, `float(n)` rounds (`int(float(2**53 + 1))` is 2**53), and from 10^16 on Python prints the float in exponent form.
- Numbers.FloatCell: keeps a text literal as written, after stripping, where Python prints the float's shortest repr (`float(" 1e3 ")` is `1000.0`). Both denote the same value.
- Python's key equality across types (`1 == 1.0 == True`) is not modelled. Keys of different JSON kinds are different keys.
- JsonValues.Show: renders `str(x)` of a JSON value. It puts a string nested in a list or object between single quotes without Python's `repr` escaping. Numbers keep their decoded text.
- GraphStore.NeighborQuery: models `depth=1`, the only depth the engines use. It also assumes the store's row order for the unspecified database order.
- ToGService.RetrieverPath: plain concatenation, without `pathlib` normalisation.
- GraphExtract.Main: does not apply `os.path.abspath` to the input directory.
- GraphExtract.ExtractTriplesContent: a triple is numbered by the row's position. That is the DataFrame's index when the parquet file stores the default index; a file storing another index would number its triples by that index instead.
- ToG.RelationCandidates: keeps the distinct relation names in first-seen order. The source builds them with `list(set(...))` (`tog_reasoning.py:195`, `services/query_tog_service.py:138-140`), whose order is CPython's string-hash order and can change between runs. Which relations a width cut or the prompt shows can therefore differ from the source.
- CypherFilter.Filters: keeps the distinct node variables in first-seen order, where the source iterates `set(node_vars)` in hash order (`neo4j_connector.py:86`, `core/neo4j_db.py:53`). Only the order of the `AND`-joined conjuncts differs, and they form the same condition.
- CypherFilter.AddFilter: inherits the first-seen conjunct order from `Filters`.
- GraphExtract.EntityOf: leaves out the `community_ids` and `text_unit_ids` fields and `_safe_list`, which fills them (`deal_graph.py:69-70`, `110-120`). The importer stores both lists back (`insert_to_neo4j.py:125-126`). What `_safe_list` does with a plain list that `pd.isna` turns into an array depends on numpy's truth value of arrays: it raises for more than one element. The list cells would need a list value in `Cell`, which the model does not have.
- YwAudit.HistorySummary: uses the corrected window `YwAudit.HistoryWindow`. For `max_operations = 0` with records present, the source (`services/yw_service.py:1098`) lists every record under a count of 0, where the model lists none; see Findings. The callers pass 10, where both agree (`YwAudit.HistoryWindowAgrees`).
- YwAudit.HistorySummaryListsWindow: states the corrected window of `min(limit, n)` records, so for a limit of 0 it lists none where the source lists all n.
- AuditService.LlmRiskAudit: builds its response with the corrected alarm code 300001. The source writes `30001` at `services/audit_service.py:229-233`, which `AuditService.RiskResponseAsWritten` models.
- `chat_with_siliconflow` and `chat_with_vision` are not defined in `core/llm_client.py`. They are modelled as ordinary LLM parameters. `ToGService.ReasonWithBrokenLlm` states what happens when such a call always raises.
- `R.error` is called with a `data=` argument it does not accept, so each such call raises `TypeError` instead of returning a response. The call sites are `services/yw_service.py:92` and `:156`, `services/audit_service.py:118`, and the severe-alarm returns at `services/yw_service.py:363`, `:802`, `:849` and `:894`. At those four the raise takes the place of the 300001 response that `YwAudit.OutOfProcessCode` and `YwAudit.Followup` decide on. These call sites are not part of this model.
- `models/schemas.py` lacks the `AlarmData` and `AuditOpt` types, which `services/yw_service.py:8` and `services/audit_service.py:13` import. The imports are not part of this model.
- `YwAudit` leaves out `_parse_operation`, `_format_event_content`, `save_record` and the database writes. `alarm_time` is an opaque string.
- AutoQuery.QueryMultipleKbs: each run uses a single complexity reply. The source asks the LLM once per knowledge base, and a non-deterministic LLM could answer differently each time. The backend's knowledge-base list is assumed to be a list of dictionaries.
- LangGraphAgent.Workflow: does not count LangGraph super-steps. It counts node visits against the recursion limit of 25, which is how the fallback loop reaches that limit. It also leaves out the accumulated message list.
- AutoQuery.RunQuery: the `max_depth`, `max_width` and `graphrag_method` values read from the context metadata (`agents/impl/auto_query_agent.py:123-142`) are folded into the tool parameter.
- The copy of `clean_graphrag_output` in `fastapi_server.py` is identical to the one in `utils/common.py` and is not modelled separately.
- `_explore_relations` keys its result by entity. A repeated tail therefore keeps its first position, and a later exploration of it overwrites the earlier one. The model explores each distinct tail once. Because the graph and LLM parameters are deterministic, this gives the same dictionary, though the source makes the repeated LLM calls.

## Findings

| source | as written | input that shows it | evidently intended | confidence | as-written member | corrected member |
|---|---|---|---|---|---|---|
| tog-neo4j/services/yw_service.py:1098 | `records[-max_operations:]` when there are more records than `max_operations` | `max_operations = 0` with one record or more: `records[-0:]` is the whole list | the last `max_operations` records, so none for a limit of 0 | low; not executed | YwAudit.HistoryWindowZeroKeepsAll | YwAudit.HistoryWindow |
| tog-neo4j/services/audit_service.py:229-233 | an alarm is returned with code `"30001"` | content `rm -rf /` with the model unreachable: the keyword fallback alarms and the response code is `"30001"` | `"300001"`, the alarm code in the method's own docstring (line 68) and in `services/yw_service.py` | medium; not executed | AuditService.AlarmCodeMismatch | AuditService.RiskResponse |
