# Lexora in Dafny

Lexora is a legal-research assistant for the laws of Uzbekistan, published on lex.uz. It has three parts:

- **lexoraui**, a Next.js screen with two chats.
  - The consultation chat sends messages and shows the backend's answers.
  - The research chat does the same, and can also receive an *interrupt*: a request to approve some of the sources found.
  - Both render assistant messages. `[label](url)` links become anchors, and `<artifact …>…</artifact>` elements become collapsible document cards.
- **lexora-ai**, a FastAPI backend.
  - It keeps in-memory sessions for a consultation engine and a research agent.
  - Its tools search lex.uz through Brave Search, score and rank documents, parse document pages, cache parsed documents, and keep versioned research artifacts.
- **Landing**, the marketing site. Its sign-up and demo-booking modals are three-step wizards.

This project models the deterministic logic of these parts and proves its properties. There is one module per source file, plus four shared modules:

- `Wrappers`: Option.
- `Seqs`: insertion-ordered collections without repetitions, and slicing.
- `Text`: JavaScript and Python white space and trimming, substring search, lower-casing and digit runs.
- `FormFields`: form values and truthiness for the wizards.

Three kinds of source code are modelled in three ways:

- **Stateful objects.** Objects whose fields change become classes. This covers the two chat screens, the source-approval card, the artifact card, the two session stores and the two wizards. Each method's `ensures` ties the new state to a pure function of the old one, and lemmas about that function carry the properties.
- **Loops.** Loops over lists become methods with loop invariants, proved equal to a recursive specification function.
- **Regular expressions.** Each pattern is written out as a scanner. A scanner tries a match at one position and otherwise moves on one character, exactly like a global regular expression. Lemmas then state where matches begin and end, that they never overlap, and that nothing is lost between them.

Across the two halves, the model proves these round trips:

- The XML that the `artifact` tool emits is read back by the UI's extractor with the same fields (`ArtifactTool.CreateRoundTrip`).
- A selection of document ids sent by the research screen reaches the agent as the same ids (`ApprovalProtocol.SelectionRoundTrip`).

The consultation agent's `consultation_search` tool (lexora-ai/app/tools/consultation_tools.py:13-75) has the same body as the search service's `brave_search_legal_documents` (lexora-ai/app/tools/legal_search_service.py:197-269). Both tools share one model, `LegalSearch.BraveSearchTool`, and its lemmas (`LegalSearch.BraveSearchToolSpec`, `LegalSearch.FoundMessageShowsIds`) hold for both.

The model also proves something the source does not announce. The screen answers "all" when every source is selected and "none" when none is. The agent's classifier does not count either answer as an approval, so neither is recorded as one (`ApprovalProtocol.AllAndNoneNotRecorded`).

Inputs that come from outside the program are parameters of the model:

- the replies of the backend, as the UI receives them;
- the graph run, i.e. the LLM agents;
- what Brave Search returned;
- the fetched page;
- the timestamps and uuids.

## Model

| member | source | states |
|---|---|---|
| ChatInterface.BlankIsAllSpace | lexoraui/src/components/ChatInterface.tsx:40 | a message is refused as blank exactly when every character is JavaScript white space |
| ChatInterface.Added | lexoraui/src/components/ChatInterface.tsx:55-65 | a reply adds exactly its assistant messages (none when `messages` is missing); a failed request adds the one fixed error message |
| ChatInterface.ChatView.constructor | lexoraui/src/components/ChatInterface.tsx:20-24 | the screen opens with no messages, an empty input and both flags down |
| ChatInterface.ChatView.BeginSend | lexoraui/src/components/ChatInterface.tsx:39-50 | a blank message, or one sent while loading or while a send is in flight, changes nothing and sends nothing; otherwise exactly one user message is appended, the input is cleared, both flags are raised and only that message is sent |
| ChatInterface.ChatView.FinishSend | lexoraui/src/components/ChatInterface.tsx:52-69 | the history only grows, by the messages of the reply; both flags are lowered whatever the outcome |
| ChatInterface.ChatView.SendMessage | lexoraui/src/components/ChatInterface.tsx:39-70 | a whole send: a refused message leaves the history and flags alone, an accepted one appends the user message then the reply's messages and leaves both flags down |
| ResearchInterface.RaisedBy | lexoraui/src/components/ResearchInterface.tsx:95-101 | a reply raises an interrupt exactly when it carries both a type and data; the interrupt keeps them, and a missing id becomes "" |
| ResearchInterface.Added | lexoraui/src/components/ResearchInterface.tsx:89-107 | a reply adds exactly its assistant messages; a failed request adds the fixed error message |
| ResearchInterface.ApprovalMessage | lexoraui/src/components/ResearchInterface.tsx:114-119 | the approval answer is "none" for no ids, "all" when as many ids as the interrupt offered sources, and otherwise "approved: " with the ids joined by ", " |
| ResearchInterface.ApprovalNotBlank | lexoraui/src/components/ResearchInterface.tsx:70-121 | the encoded answer is never blank, so only the in-flight guard can drop it |
| ResearchInterface.RecoveryEncoding | lexoraui/src/components/ResearchInterface.tsx:114-121 | under an interrupt that offers zero sources, the three recovery choices are sent as "approved: retry", "approved: broaden" and "approved: proceed" |
| ResearchInterface.ResearchView.constructor | lexoraui/src/components/ResearchInterface.tsx:45-54 | the screen opens with no messages, an empty input, both flags down and no interrupt |
| ResearchInterface.ResearchView.BeginSend | lexoraui/src/components/ResearchInterface.tsx:69-83 | a refused message changes nothing; an accepted one appends one user message, clears the input and the current interrupt and raises both flags |
| ResearchInterface.ResearchView.FinishSend | lexoraui/src/components/ResearchInterface.tsx:85-111 | the history grows by the reply's messages, a raised interrupt replaces the current one and otherwise it is kept, and both flags are lowered |
| ResearchInterface.ResearchView.HandleSourceApproval | lexoraui/src/components/ResearchInterface.tsx:114-122 | the encoded answer is sent as one user message unless a send is in flight, and sending it clears the interrupt |
| SourceApproval.ToggledSpec | lexoraui/src/components/SourceApproval.tsx:26-34 | toggling flips the membership of the given id, leaves every other id as it was, and keeps the selection free of repetitions |
| SourceApproval.IdsOf | lexoraui/src/components/SourceApproval.tsx:37 | one id per offered source |
| SourceApproval.SelectAllSpec | lexoraui/src/components/SourceApproval.tsx:36-38 | select-all holds exactly the offered ids, each once |
| SourceApproval.LabelOf | lexoraui/src/components/SourceApproval.tsx:66-70 | the label is High from 0.8, Medium from 0.6 below 0.8, and Low below 0.6, each as an if-and-only-if |
| SourceApproval.ApprovalCard.constructor | lexoraui/src/components/SourceApproval.tsx:24 | the selection starts empty |
| SourceApproval.ApprovalCard.ToggleSelection | lexoraui/src/components/SourceApproval.tsx:26-34 | the new selection is the toggled one and stays free of repetitions |
| SourceApproval.ApprovalCard.ClickCard | lexoraui/src/components/SourceApproval.tsx:169 | a click toggles the card unless a request is in flight, in which case nothing changes |
| SourceApproval.ApprovalCard.SelectAll | lexoraui/src/components/SourceApproval.tsx:36-38 | the selection becomes the offered ids in order, each once |
| SourceApproval.ApprovalCard.SelectNone | lexoraui/src/components/SourceApproval.tsx:40-42 | the selection becomes empty |
| SourceApproval.ApprovalCard.Approve | lexoraui/src/components/SourceApproval.tsx:44-46 | the answer is the selection in insertion order, without repetitions |
| SourceApproval.ApprovalCard.SkipAll | lexoraui/src/components/SourceApproval.tsx:248 | "Skip All" answers with the empty list |
| Messages.AssistantOnly | lexoraui/src/components/ChatInterface.tsx:57 | the filtered list is never longer than its input |
| Messages.AssistantOnlySpec | lexoraui/src/components/ChatInterface.tsx:57 | the filter keeps exactly the assistant messages: every message it keeps is an assistant message, and every assistant message of the input is kept |
| Messages.AssistantOnlyAppend | lexoraui/src/components/ResearchInterface.tsx:90 | the filter keeps the relative order of the messages: it distributes over concatenation |
| Messages.ToGraph | lexora-ai/app/core/research_agent.py:38-43 | the converted history has only human and ai messages and is never longer than the history |
| Messages.ToGraphAppend | lexora-ai/app/core/research_agent.py:38-43 | the conversion distributes over concatenation, so it keeps the order of the history |
| Messages.SpokenSpec | lexora-ai/app/core/research_agent.py:38-43 | the messages the conversion looks at are exactly the history's user and assistant messages |
| Messages.ToGraphKeepsSpoken | lexora-ai/app/core/research_agent.py:38-43 | for any history, system messages are skipped and the user and assistant messages become one graph message each, in order, keeping their contents, user becoming human and assistant ai |
| Messages.ToGraphFaithful | lexora-ai/app/core/consultation_engine.py:31-36 | without system messages the conversion is one to one, keeps every content, and maps user to human and assistant to ai |
| Messages.ConvertHistory | lexora-ai/app/core/research_agent.py:38-43 | the conversion loop produces the converted history |
| ResearchState.NewVersion | lexora-ai/app/schemas/research_state.py:45-51 | a version built without feedback has empty feedback and keeps the given fields |
| ResearchState.NewArtifact | lexora-ai/app/schemas/research_state.py:54-60 | a new artifact starts at version 1 with no stored versions |
| ResearchState.NewArtifactEmpty | lexora-ai/app/schemas/research_state.py:62-64 | a new artifact's current content is "" |
| ResearchState.CurrentContentOfStored | lexora-ai/app/schemas/research_state.py:62-64 | once the current version is stored, the current content is that version's content |
| ResearchState.DefaultStateSpec | lexora-ai/app/schemas/research_state.py:75-125 | the state holds the given messages and the declared defaults: no approval pending, stage "multi_search", 20 remaining steps, empty question and artifact id, and every collection empty |
| ArtifactRenderer.MatchBlockSound | lexoraui/src/components/ArtifactRenderer.tsx:26 | every block the scanner reports spells the text it covers and has the shape of the block pattern: `<artifact`, white space, a head without `>`, a body with no earlier close tag, `</artifact>` |
| ArtifactRenderer.MatchBlockComplete | lexoraui/src/components/ArtifactRenderer.tsx:26 | conversely, every well-formed block a text starts with is the one the scanner reports |
| ArtifactRenderer.MatchAttrSound | lexoraui/src/components/ArtifactRenderer.tsx:35 | every attribute match is a word key, `="`, a value without quotes and a closing quote |
| ArtifactRenderer.MatchAttrComplete | lexoraui/src/components/ArtifactRenderer.tsx:35 | conversely, a text that starts with such a key and value is matched with exactly that key and value |
| ArtifactRenderer.AssignLastWins | lexoraui/src/components/ArtifactRenderer.tsx:37-39 | a key is in the attribute map exactly when some matched pair has it, and the last such pair's value wins |
| ArtifactRenderer.ParseAttributes | lexoraui/src/components/ArtifactRenderer.tsx:34-39 | the attribute loop builds the attribute map of the matched pairs |
| ArtifactRenderer.BuildArtifact | lexoraui/src/components/ArtifactRenderer.tsx:30-48 | one block becomes one artifact: command defaults to "create", a missing id to the fallback token, title, type and stage are the attributes if present, and the content is the trimmed body |
| ArtifactRenderer.TokensSpellInput | lexoraui/src/components/ArtifactRenderer.tsx:26-29 | the block scan cuts the text into characters and blocks that together spell the text |
| ArtifactRenderer.BlocksWellFormed | lexoraui/src/components/ArtifactRenderer.tsx:26-29 | every block the scan finds is well formed |
| ArtifactRenderer.BlockFirst | lexoraui/src/components/ArtifactRenderer.tsx:26-29 | a text that starts with a well-formed block yields that block first, and removing blocks drops it |
| ArtifactRenderer.NoBlockMeansPlain | lexoraui/src/components/ArtifactRenderer.tsx:26 | the scan finds no block exactly when the pattern matches nowhere, and then removing blocks changes nothing |
| ArtifactRenderer.Artifacts | lexoraui/src/components/ArtifactRenderer.tsx:24-52 | one artifact per block found |
| ArtifactRenderer.ParseArtifacts | lexoraui/src/components/ArtifactRenderer.tsx:24-52 | the match loop yields, in document order, the artifact of each block found, the k-th taking the k-th fallback id |
| ArtifactRenderer.MainContent | lexoraui/src/components/ArtifactRenderer.tsx:130-133 | the residual text is the content after one remove-and-trim round per artifact |
| ArtifactRenderer.NoBlockRendersUnchanged | lexoraui/src/components/ArtifactRenderer.tsx:122-127 | a message with no block has no artifacts and is rendered as it is |
| ArtifactRenderer.Toggle | lexoraui/src/components/ArtifactRenderer.tsx:54-62 | toggling flips the given id's membership and leaves every other id alone |
| ArtifactRenderer.ToggleTwice | lexoraui/src/components/ArtifactRenderer.tsx:54-62 | toggling the same id twice restores the set |
| ArtifactRenderer.ArtifactView.constructor | lexoraui/src/components/ArtifactRenderer.tsx:20 | no artifact starts expanded |
| ArtifactRenderer.ArtifactView.ToggleExpanded | lexoraui/src/components/ArtifactRenderer.tsx:54-62 | the expanded set becomes the toggled one |
| MessageRenderer.NextLinkSpec | lexoraui/src/components/MessageRenderer.tsx:11-16 | the next match is at the first index from `lastIndex` where the link pattern matches, and there is none only when it matches nowhere further on |
| MessageRenderer.MatchLinkSound | lexoraui/src/components/MessageRenderer.tsx:11 | every reported link is spelled `[label](url)` at its index, with a label without `]` and an http or https URL without `)` |
| MessageRenderer.MatchLinkComplete | lexoraui/src/components/MessageRenderer.tsx:11 | conversely, every such link spelled at an index is the one reported there |
| MessageRenderer.ParseLinks | lexoraui/src/components/MessageRenderer.tsx:9-47 | the scan loop yields the parts of the message: text before each link, the link, the remaining text, and the whole text when nothing was pushed |
| MessageRenderer.PartsSpellInput | lexoraui/src/components/MessageRenderer.tsx:16-46 | the text parts and the links' source text together spell the message: nothing is lost or repeated |
| MessageRenderer.PartsLinksWellFormed | lexoraui/src/components/MessageRenderer.tsx:16-39 | every anchor holds a well-formed link |
| MessageRenderer.PartsNoEmptyText | lexoraui/src/components/MessageRenderer.tsx:18-46 | no empty text part is pushed: only the empty message yields a single empty text |
| MessageRenderer.PartsNoAdjacentText | lexoraui/src/components/MessageRenderer.tsx:16-44 | two text parts never follow each other |
| MessageRenderer.NoLinkSinglePart | lexoraui/src/components/MessageRenderer.tsx:46 | a message without a link is one text part |
| MessageRenderer.RenderLinesBreaks | lexoraui/src/components/MessageRenderer.tsx:53-57 | lines are shown with a break after every line but the last, and the shown text rejoins them with line feeds |
| MessageRenderer.RenderTextBreaks | lexoraui/src/components/MessageRenderer.tsx:51-58 | a text part shows one break per line feed and shows its own text |
| ArtifactTool.RunRaises | lexora-ai/app/tools/research_tools.py:570-577 | the tool fails with no update exactly on a rewrite without a stage of an artifact whose current version is not stored (the version lookup raises) |
| ArtifactTool.WritesIffAccepted | lexora-ai/app/tools/research_tools.py:459-606 | a call writes the artifact map exactly when its required arguments are given and its artifact is found; any other call leaves the map and the current id alone |
| ArtifactTool.CreateRejections | lexora-ai/app/tools/research_tools.py:459-606 | a create missing title, type or content, and an unknown command, answer with their fixed messages |
| ArtifactTool.UpdateRejections | lexora-ai/app/tools/research_tools.py:498-521 | an update missing a string, of an unknown id, or whose search string is absent answers with its message |
| ArtifactTool.RewriteRejections | lexora-ai/app/tools/research_tools.py:555-568 | a rewrite without content or of an unknown id answers with its message |
| ArtifactTool.CreateSpec | lexora-ai/app/tools/research_tools.py:483-496 | an accepted create puts the new artifact under its id, keeps every other artifact and makes it the current artifact |
| ArtifactTool.CreatedArtifact | lexora-ai/app/tools/research_tools.py:467-481 | the created artifact is version 1 only, with the given id, title, type and content, the stage defaulting to "draft" and the given timestamp |
| ArtifactTool.RevisedSpec | lexora-ai/app/tools/research_tools.py:525-586 | a revision raises the version by one, keeps id, title and type, adds the new version and, under the version invariant, keeps every older one |
| ArtifactTool.RevisionStored | lexora-ai/app/tools/research_tools.py:542-599 | an accepted update or rewrite replaces only its artifact and leaves the current artifact id alone |
| ArtifactTool.UpdateSpec | lexora-ai/app/tools/research_tools.py:513-540 | an accepted update stores the current content with every occurrence of `old_str` replaced by `new_str`, with the stage given or inherited |
| ArtifactTool.RewriteSpec | lexora-ai/app/tools/research_tools.py:570-586 | an accepted rewrite stores the given content, with the stage given or inherited |
| ArtifactTool.RunKeepsVersioned | lexora-ai/app/tools/research_tools.py:459-599 | no call breaks the invariant that the versions run from 1 to the current version |
| ArtifactTool.CreateRoundTrip | lexora-ai/app/tools/research_tools.py:486-488 | the UI's extractor reads the create message back as one artifact with the same id, title, type and stage and the content, and shows no other text |
| ArtifactTool.UpdateWrites | lexora-ai/app/tools/research_tools.py:524-546 | the update message is the element of the replaced content, which is also what is stored |
| ArtifactTool.UpdateRoundTrip | lexora-ai/app/tools/research_tools.py:544-546 | the extractor reads the update message back as one "update" artifact with the same id and the new content |
| ArtifactTool.RewriteRoundTrip | lexora-ai/app/tools/research_tools.py:590-592 | the extractor reads the rewrite message back as one "rewrite" artifact with the same id and the content |
| SearchStrategy.ConceptTableWellFormed | lexora-ai/app/tools/research_tools.py:51-63 | every keyword of the concept table is non-empty and maps to at least two concepts |
| SearchStrategy.MatchedSpec | lexora-ai/app/tools/research_tools.py:66-69 | a concept is collected exactly when the lowered question contains a keyword that maps to it |
| SearchStrategy.MatchedSize | lexora-ai/app/tools/research_tools.py:66-69 | under a well-formed table the collected concepts are none or at least two |
| SearchStrategy.MatchedNone | lexora-ai/app/tools/research_tools.py:66-69 | a question containing no keyword collects nothing |
| SearchStrategy.IdentifiedSpec | lexora-ai/app/tools/research_tools.py:66-73 | the identified concepts are the matched ones, or the three general ones when none matched, and always at least two |
| SearchStrategy.IdentifyConcepts | lexora-ai/app/tools/research_tools.py:66-73 | the keyword loop computes the identified concepts |
| SearchStrategy.PlanOrdered | lexora-ai/app/tools/research_tools.py:76-139 | the planned queries go from general to specific: general, medium, specific, alternative, very specific, fallback, each at most once and in that order |
| SearchStrategy.PlanShape | lexora-ai/app/tools/research_tools.py:78-139 | three to five queries, the first the general query on the first concept, an alternative on the second concept, a fallback exactly when there are no key terms and at most eight words, and a very specific query on the first 50 characters |
| SearchStrategy.ConceptsCovered | lexora-ai/app/tools/research_tools.py:84-126 | every concept a query carries is an identified concept or a key term |
| SearchStrategy.SummaryListsQueries | lexora-ai/app/tools/research_tools.py:141-142 | the summary names every planned query with its type |
| SearchStrategy.StrategySpec | lexora-ai/app/tools/research_tools.py:39-151 | an existing plan is left alone; otherwise three to five ordered queries, the recorded concepts exactly the identified ones and the first three key terms, and the stage list set to "strategy_generated" |
| SearchStrategy.GenerateMultiSearchStrategy | lexora-ai/app/tools/research_tools.py:17-152 | the tool computes the strategy update |
| ResearchTools.NewlyExecutedSpec | lexora-ai/app/tools/research_tools.py:183-203 | a query is recorded as executed exactly when it was planned, not run before, and its search succeeded with documents |
| ResearchTools.UniqueSpec | lexora-ai/app/tools/research_tools.py:206-213 | the deduplicated results have pairwise distinct ids and exactly the ids of the input |
| ResearchTools.UniqueKeepsFirst | lexora-ai/app/tools/research_tools.py:210-213 | each kept result is the first in the input with its id |
| ResearchTools.UniquePrefix | lexora-ai/app/tools/research_tools.py:206-213 | deduplicating a longer list extends the deduplication of its prefix |
| ResearchTools.UniqueOfDistinct | lexora-ai/app/tools/research_tools.py:206-213 | a list with distinct ids is left unchanged |
| ResearchTools.SearchedSpec | lexora-ai/app/tools/research_tools.py:173-236 | no plan gives the fixed message; otherwise the stored results are the old and new ones deduplicated, keeping every earlier result, the executed list only grows, and the stage list is overwritten with "multi_search_executed" |
| ResearchTools.RunPlans | lexora-ai/app/tools/research_tools.py:180-203 | the plan loop collects the new results and the newly executed queries |
| ResearchTools.Dedupe | lexora-ai/app/tools/research_tools.py:207-213 | the seen-id loop computes the deduplicated list |
| ResearchTools.ExecuteSearches | lexora-ai/app/tools/research_tools.py:155-236 | the tool computes the search update |
| ResearchTools.Validated | lexora-ai/app/tools/research_tools.py:274-308 | one validation per raw result, in order |
| ResearchTools.RankedSpec | lexora-ai/app/tools/research_tools.py:257-343 | validation runs exactly when there are results and none validated yet; the ranked list is a permutation of the validations, sorted by descending score, each relevant exactly from the 0.3 threshold and each built from a raw result |
| ResearchTools.ValidateAndRankSources | lexora-ai/app/tools/research_tools.py:239-343 | the tool computes the validation update |
| ResearchTools.RelevantSpec | lexora-ai/app/tools/research_tools.py:382 | the relevant list holds exactly the relevant validations |
| ResearchTools.ListingShowsIds | lexora-ai/app/tools/research_tools.py:407-410 | the listing shows the document id of every source it lists |
| ResearchTools.BuildListing | lexora-ai/app/tools/research_tools.py:407-410 | the listing loop builds the listing |
| ResearchTools.ApprovalTextShowsIds | lexora-ai/app/tools/research_tools.py:404-412 | the approval text shows the id of every relevant source |
| ResearchTools.RequestShowsIds | lexora-ai/app/tools/research_tools.py:382-412 | the request rendered for a validation list shows the id of every relevant validation |
| ResearchTools.RequestGuards | lexora-ai/app/tools/research_tools.py:366-379 | without validations only a message; with a request already recorded only the pending flag and a message |
| ResearchTools.NoRelevantSpec | lexora-ai/app/tools/research_tools.py:384-402 | with no relevant source: approval pending for "no_sources", stage "no_relevant_sources", the stage appended, the fixed recovery message and no interrupt |
| ResearchTools.AwaitingSpec | lexora-ai/app/tools/research_tools.py:404-425 | with a relevant source, the command the branch builds (what a resumed execution returns): approval pending for "sources", stage "awaiting_approval", the stage appended, and the approval text both stored and carried as the interrupt |
| ResearchTools.AwaitingInterrupts | lexora-ai/app/tools/research_tools.py:412-425 | a first execution of that branch raises at `interrupt` with the request for exactly the relevant sources and writes no field; every other branch returns its update, which is applied |
| ResearchTools.AwaitingRepeats | lexora-ai/app/tools/research_tools.py:373-425 | because the raising execution records no stage, asking again never reaches the "already requested" guard and raises the same request again |
| ResearchTools.RequestIdempotent | lexora-ai/app/tools/research_tools.py:373-420 | once a request is recorded, asking again changes nothing |
| ResearchTools.NoRelevantRepeats | lexora-ai/app/tools/research_tools.py:373-399 | with no relevant source the request stage is never recorded, so each repeat appends "no_relevant_sources_found" again |
| Ranking.SortDescSpec | lexora-ai/app/tools/research_tools.py:311 | the sort orders by descending score and is a permutation of its input |
| Ranking.SortedUnchanged | lexora-ai/app/tools/research_tools.py:311 | an input already in descending order comes out unchanged |
| Ranking.SortByKey | lexora-ai/app/tools/research_tools.py:311 | the insertion loop computes the sort |
| Ranking.TopSpec | lexora-ai/app/tools/legal_search_service.py:241-243 | the first n of the sort: n elements (or all), in descending order, drawn from the input, none left out scoring above one kept |
| ResearchAgent.RunEnd | lexora-ai/app/core/research_agent.py:207 | the end of the word run starting at an index: every character before it is a word character and the one at it is not |
| ResearchAgent.SpansMatch | lexora-ai/app/core/research_agent.py:207-225 | every span the `\b\d{6,}\b` scan reports is a whole word of six or more digits |
| ResearchAgent.SpansOrdered | lexora-ai/app/core/research_agent.py:225 | the reported spans are in text order and do not overlap |
| ResearchAgent.SpansComplete | lexora-ai/app/core/research_agent.py:225 | every whole word of six or more digits is reported |
| ResearchAgent.LongNumbersSpec | lexora-ai/app/core/research_agent.py:225 | `findall` returns, in order, the text of exactly the whole six-or-more-digit words |
| ResearchAgent.LongNumbersDigits | lexora-ai/app/core/research_agent.py:225 | each number found has at least six characters, all digits |
| ResearchAgent.AnyContainedIff | lexora-ai/app/core/research_agent.py:206 | `any(keyword in message)` holds exactly when some keyword occurs |
| ResearchAgent.IsApprovalIff | lexora-ai/app/core/research_agent.py:202-207 | a message is an approval exactly when its lowering contains an approval keyword or it has a six-or-more-digit word |
| ResearchAgent.ParseApprovalNumbers | lexora-ai/app/core/research_agent.py:223-226 | without a command word the parsed answer is the list of long numbers |
| ResearchAgent.ParseApprovalCommands | lexora-ai/app/core/research_agent.py:211-222 | the command words are tried in order: "all" (or the Russian word), "retry", "broaden", "proceed", then "none" or "skip" giving the empty list |
| ResearchAgent.AllNotApproval | lexora-ai/app/core/research_agent.py:202-207 | "all" is not classified as an approval |
| ResearchAgent.NoneNotApproval | lexora-ai/app/core/research_agent.py:202-207 | "none" is not classified as an approval |
| ResearchAgent.RelevantSourcesSpec | lexora-ai/app/core/research_agent.py:236-246 | a source is offered exactly when some relevant validation result carries its fields |
| ResearchAgent.SourceApprovalInterrupt | lexora-ai/app/core/research_agent.py:228-258 | no payload without validation results; otherwise the relevant sources, their count as the total, and the given id |
| ResearchAgent.CreateSourceApprovalInterrupt | lexora-ai/app/core/research_agent.py:228-258 | the loop builds that payload |
| ResearchAgent.NoSourcesPayload | lexora-ai/app/core/research_agent.py:128-140 | the no-relevant-sources payload offers no source, a zero total, the flag set and the number of validation results found |
| ResearchAgent.InterruptOf | lexora-ai/app/core/research_agent.py:121-154 | an interrupt is attached only while an approval is pending; its total is zero in the no-relevant-sources stage and otherwise the number of sources offered |
| ResearchAgent.Opened | lexora-ai/app/core/research_agent.py:22-27 | an unknown session starts with no messages, no state and no pending interrupt |
| ResearchAgent.InitialStateIsDefault | lexora-ai/app/core/research_agent.py:50-77 | the first turn's literal state agrees with the schema defaults, with the first message as the question |
| ResearchAgent.PreparedFeedback | lexora-ai/app/core/research_agent.py:78-82 | a later turn hands the graph the converted history and the last message as feedback |
| ResearchAgent.PreparedApproval | lexora-ai/app/core/research_agent.py:45-89 | an approval records the parsed ids, clears the pending flag and enters "sources_approved"; any other message keeps all three |
| ResearchAgent.PrepareState | lexora-ai/app/core/research_agent.py:45-89 | the state-building steps compute the state handed to the graph |
| ResearchAgent.Harvest | lexora-ai/app/core/research_agent.py:103-119 | every harvested message is an assistant message within the length bound |
| ResearchAgent.HarvestIsAppendNew | lexora-ai/app/core/research_agent.py:106-116 | the history after the scan is the history with each kept ai message appended when absent |
| ResearchAgent.HarvestReplies | lexora-ai/app/core/research_agent.py:103-119 | the scan loop computes the new replies and the updated history |
| ResearchAgent.TurnHistory | lexora-ai/app/core/research_agent.py:32-116 | a turn never shrinks the history, never repeats a message, records every incoming message, and adds only messages absent before |
| ResearchAgent.AnswerAtMostOne | lexora-ai/app/core/research_agent.py:149-200 | a response carries at most one message: after a run, the last new assistant message, which also ends the history; after an error, the error text and no interrupt |
| ResearchAgent.BeginTurn | lexora-ai/app/core/research_agent.py:21-89 | the first half of a turn records the incoming messages and prepares the state |
| ResearchAgent.FinishTurn | lexora-ai/app/core/research_agent.py:94-200 | the second half stores the run's state and replies and builds the response |
| ResearchAgent.ResearchAgentWrapper.constructor | lexora-ai/app/core/research_agent.py:13-16 | the store starts empty |
| ResearchAgent.ResearchAgentWrapper.GetResponse | lexora-ai/app/core/research_agent.py:18-200 | only the given session changes, to the finished turn, every history stays free of repetitions, and the response is the turn's answer |
| ResearchAgent.ResearchAgentWrapper.GetSessionHistory | lexora-ai/app/core/research_agent.py:279-283 | the stored history, or the empty list for an unknown id |
| ResearchAgent.ResearchAgentWrapper.ClearSession | lexora-ai/app/core/research_agent.py:285-290 | reports whether the session existed and removes exactly it |
| ApprovalProtocol.ToWire | lexora-ai/app/core/research_agent.py:149-155 | the response on the wire carries the messages, and an interrupt type exactly when there is an interrupt |
| ApprovalProtocol.WireInterrupt | lexoraui/src/components/ResearchInterface.tsx:95-101 | the screen raises an interrupt exactly when the response carries one, with its id and total |
| ApprovalProtocol.JoinedNumbers | lexora-ai/app/core/research_agent.py:225 | scanning numeric ids joined by ", " gives the ids back |
| ApprovalProtocol.SelectionRoundTrip | lexoraui/src/components/ResearchInterface.tsx:114-119 | the screen's answer for a partial selection of numeric ids is an approval that the agent parses back to exactly those ids |
| ApprovalProtocol.SelectionRecorded | lexora-ai/app/core/research_agent.py:84-89 | the next turn records such a selection, clears the pending flag and enters "sources_approved" |
| ApprovalProtocol.AllAndNoneNotRecorded | lexora-ai/app/core/research_agent.py:202-207 | the screen's "all" and "none" answers are plain feedback to the agent: the approval fields stay as they were |
| ApprovalProtocol.RecoveryRoundTrip | lexoraui/src/components/ResearchInterface.tsx:114-119 | under a no-relevant-sources interrupt each recovery button's answer is read back by the agent as an approval of that word |
| ConsultationEngine.KeptSpec | lexora-ai/app/core/consultation_engine.py:54-98 | a message is kept exactly when it comes from a human or ai message whose stripped content is non-empty and within the bound, with the role mapped |
| ConsultationEngine.KeepMessages | lexora-ai/app/core/consultation_engine.py:51-98 | the loop computes the kept messages |
| ConsultationEngine.LatestStep | lexora-ai/app/core/consultation_engine.py:109-110 | the reply is the last kept message when it is an assistant message, otherwise the reply for the messages before it |
| ConsultationEngine.LatestSpec | lexora-ai/app/core/consultation_engine.py:109-114 | at most one reply; none exactly when no assistant message was kept; otherwise the last assistant message |
| ConsultationEngine.LatestReply | lexora-ai/app/core/consultation_engine.py:109-114 | the filter and the `[-1]` compute the reply |
| ConsultationEngine.StoredSpec | lexora-ai/app/core/consultation_engine.py:25-106 | the history only grows, never repeats a message, and holds every incoming and every kept message |
| ConsultationEngine.AnswerSpec | lexora-ai/app/core/consultation_engine.py:48-114 | a run that raises gives no answer; otherwise at most one assistant message, one of the kept and stored ones |
| ConsultationEngine.ConsultationEngine.constructor | lexora-ai/app/core/consultation_engine.py:8-11 | the store starts empty |
| ConsultationEngine.ConsultationEngine.GetResponse | lexora-ai/app/core/consultation_engine.py:13-114 | only the given session changes, to the stored history, histories stay free of repetitions, and the answer is the turn's |
| ConsultationEngine.ConsultationEngine.GetSessionHistory | lexora-ai/app/core/consultation_engine.py:116-118 | the stored history, or the empty list |
| ConsultationEngine.ConsultationEngine.ClearSession | lexora-ai/app/core/consultation_engine.py:120-125 | reports whether the session existed and removes exactly it |
| LegalSearch.Group | lexora-ai/app/tools/legal_search_service.py:44-70 | the captured group of every id pattern is a non-empty run of digits |
| LegalSearch.FindMatchSpec | lexora-ai/app/tools/legal_search_service.py:74 | the scan from an index stops at the first match, and finding none means no match from there on |
| LegalSearch.SearchSpec | lexora-ai/app/tools/legal_search_service.py:74 | `re.search` yields nothing exactly when the pattern matches nowhere, otherwise the group of its leftmost match |
| LegalSearch.ServiceDocumentId | lexora-ai/app/tools/legal_search_service.py:65-77 | the id is empty or all digits |
| LegalSearch.ServiceDocumentIdSpec | lexora-ai/app/tools/legal_search_service.py:65-77 | the id is empty exactly when none of the three patterns occurs, and a `/docs/` match takes precedence |
| LegalSearch.DocumentDate | lexora-ai/app/tools/legal_search_service.py:44-45 | the date is empty or ten characters of the form dd.mm.yyyy |
| LegalSearch.ScoreBounds | lexora-ai/app/tools/legal_search_service.py:79-98 | the score lies in [0.5, 0.95]; an `/acts/` URL scores at least 0.7, any other at most 0.75 |
| LegalSearch.CalculateRelevanceScore | lexora-ai/app/tools/legal_search_service.py:79-98 | the accumulated score equals the scoring function, whatever the description |
| LegalSearch.Documents | lexora-ai/app/tools/legal_search_service.py:30-42 | never more documents than results |
| LegalSearch.DocumentsSpec | lexora-ai/app/tools/legal_search_service.py:30-42 | a document is listed exactly when it is the conversion of an accepted result |
| LegalSearch.DocumentFields | lexora-ai/app/tools/legal_search_service.py:39-57 | each document carries its result's title, URL and snippet, the id and date read from the URL and the URL's score |
| LegalSearch.ExtractDocumentInfo | lexora-ai/app/tools/legal_search_service.py:59-63 | the response is successful and its count is the number of documents |
| LegalSearch.ConvertResult | lexora-ai/app/tools/legal_search_service.py:31-57 | a result converts to exactly its document when it is a record whose URL yields a service document id and does not contain `action=compare`, a missing title becoming ""; any other result converts to none |
| LegalSearch.ExtractDocuments | lexora-ai/app/tools/legal_search_service.py:26-63 | the conversion loop builds the extracted response |
| LegalSearch.SearchStringSpec | lexora-ai/app/tools/legal_search_service.py:104-108 | the query is stripped, so stripping it first changes nothing, and without a filter the search is restricted to `site:lex.uz` |
| LegalSearch.SearchLegalDocumentsSpec | lexora-ai/app/tools/legal_search_service.py:100-190 | success exactly when Brave returned results; a failure carries its error and no document; a success the documents of the accepted results, counted |
| LegalSearch.BraveSearchToolSpec | lexora-ai/app/tools/legal_search_service.py:215-251 | the search and its query are always recorded; a failure leaves the results alone, an empty search clears them, otherwise the ten best by descending score are stored, taken from the kept documents, and no document left out scores above a stored one |
| LegalSearch.DocumentListShowsIds | lexora-ai/app/tools/legal_search_service.py:253-259 | the numbered list shows the id of every document on it |
| LegalSearch.FoundMessageShowsIds | lexora-ai/app/tools/legal_search_service.py:253-259 | the tool's message names the id of every stored document |
| LegalSearch.BraveSearchLegalDocuments | lexora-ai/app/tools/legal_search_service.py:197-269 | the tool with its conversion loop gives the state update of the tool function |
| DocumentParser.ParserDocumentId | lexora-ai/app/tools/document_parser.py:24-37 | an id found is a non-empty run of digits |
| DocumentParser.ParserDocumentIdSpec | lexora-ai/app/tools/document_parser.py:24-37 | no id exactly when none of the four patterns occurs anywhere, the trailing number's `$` matching at the end or before a final line feed |
| DocumentParser.ExtractorsAgree | lexora-ai/app/tools/document_parser.py:24-37 | whenever the search service finds an id the parser finds the same one, and when the parser finds none neither does the service |
| DocumentParser.NoLettersNoServiceId | lexora-ai/app/tools/document_parser.py:24-37 | on a URL that cannot hold the service's markers only the parser's trailing-number pattern can give an id |
| DocumentParser.OnlyParserReadsTrailingNumber | lexora-ai/app/tools/document_parser.py:24-37 | a URL without the letters of the service's markers that ends in `/` and a number, with or without a final line feed, has a parser id but no service id, and when that slash is its first the id is the number |
| DocumentParser.ActsUrlId | lexora-ai/app/tools/document_parser.py:17-22 | the `/acts/` URL built from an id yields that id again |
| DocumentParser.ToActsFormatIdempotent | lexora-ai/app/tools/document_parser.py:17-22 | normalising twice is normalising once, and normalising keeps the id |
| DocumentParser.Paragraphs | lexora-ai/app/tools/document_parser.py:86-94 | never more paragraphs than elements |
| DocumentParser.ParagraphsSpec | lexora-ai/app/tools/document_parser.py:86-94 | a paragraph is listed exactly when it comes from a heading or text element whose stripped text is longer than ten characters |
| DocumentParser.ParagraphLong | lexora-ai/app/tools/document_parser.py:86-94 | a kept paragraph is longer than ten characters and holds its element's stripped text |
| DocumentParser.ContentSpec | lexora-ai/app/tools/document_parser.py:86-96 | the content holds the text of every kept element, and is empty exactly when no element is kept |
| DocumentParser.CleanAndStructureContent | lexora-ai/app/tools/document_parser.py:77-96 | the loop over the elements builds the content |
| DocumentParser.ParseLegalDocumentSpec | lexora-ai/app/tools/document_parser.py:39-126 | the normalised URL is fetched; parsing succeeds exactly when the fetch does and some element is kept, and then the markdown is the content and the metadata carry the original URL, its id and the page title |
| ConsultationTools.FirstWithId | lexora-ai/app/tools/consultation_tools.py:95-103 | a result found is among the results and has the id |
| ConsultationTools.FirstWithIdSpec | lexora-ai/app/tools/consultation_tools.py:95-103 | none exactly when no result has the id; otherwise the result at the first index with it |
| ConsultationTools.FindSearchResult | lexora-ai/app/tools/consultation_tools.py:95-103 | the lookup loop returns the first result with the id |
| ConsultationTools.Preview | lexora-ai/app/tools/consultation_tools.py:135 | content up to 1000 characters is shown whole, longer content as its first 1000 characters and `...` |
| ConsultationTools.ParseDocumentToolGuards | lexora-ai/app/tools/consultation_tools.py:88-120 | a cached id, an id with no search result or no URL, and a parse failure each leave the cache alone with their own message; the cache changes exactly on success |
| ConsultationTools.ParseDocumentToolSuccess | lexora-ai/app/tools/consultation_tools.py:122-142 | a success parsed the URL of the first result with the id, added exactly that entry, with the parser's title, content and metadata and the time, and previews its content |
| ConsultationTools.ParseDocumentToolOnce | lexora-ai/app/tools/consultation_tools.py:88-93 | after a document is stored, asking for it again changes nothing |
| SignupModal.StepValidSpec | Landing/src/components/SignupModal.tsx:52-70 | a step is valid exactly when each field it checks is filled and, on the first step, the password equals its confirmation |
| SignupModal.StepValidLocal | Landing/src/components/SignupModal.tsx:52-70 | a step's validity depends only on its own fields, and a step outside the three is never valid |
| SignupModal.StepValidRefuses | Landing/src/components/SignupModal.tsx:24-70 | mismatched passwords never pass the first step, and the opening form passes no step |
| SignupModal.InputChangedSpec | Landing/src/components/SignupModal.tsx:37-50 | an input change writes exactly the named field (the checked state of a checkbox, the text otherwise) and its touched mark |
| SignupModal.NextSpec | Landing/src/components/SignupModal.tsx:72-79 | Next moves one step on from a valid step and otherwise only marks the step; the form never changes and the step stays within the three |
| SignupModal.BackSpec | Landing/src/components/SignupModal.tsx:80 | Back goes exactly one step back within the steps, and Next undoes it when that step is valid |
| SignupModal.SubmitSpec | Landing/src/components/SignupModal.tsx:82-89 | a submit on an invalid step does nothing; on a valid one it only closes the modal |
| SignupModal.SignupWizard.constructor | Landing/src/components/SignupModal.tsx:23-35 | the wizard opens on the first step with the empty form and nothing touched |
| SignupModal.SignupWizard.HandleInputChange | Landing/src/components/SignupModal.tsx:37-50 | the new state is the input change's, and the step stays within range |
| SignupModal.SignupWizard.HandleNext | Landing/src/components/SignupModal.tsx:72-79 | the new state is Next's, and the step stays within range |
| SignupModal.SignupWizard.HandleBack | Landing/src/components/SignupModal.tsx:80 | the new state is Back's, and the step stays within range |
| SignupModal.SignupWizard.HandleSubmit | Landing/src/components/SignupModal.tsx:82-89 | the new state is the submit's, and the step stays within range |
| DemoModal.StepValidSpec | Landing/src/components/DemoModal.tsx:46-57 | a step is valid exactly when each field it checks is non-empty, and a step outside the three is never valid |
| DemoModal.StepValidLocal | Landing/src/components/DemoModal.tsx:46-57 | a step's validity depends only on its own fields, and the opening form passes no step |
| DemoModal.InputChangedSpec | Landing/src/components/DemoModal.tsx:34-44 | an input change writes exactly the named field and its touched mark |
| DemoModal.NextSpec | Landing/src/components/DemoModal.tsx:59-66 | Next moves one step on from a valid step and otherwise only marks the step; the form never changes and the step stays within the three |
| DemoModal.BackSpec | Landing/src/components/DemoModal.tsx:67 | Back goes exactly one step back within the steps, and Next undoes it when that step is valid |
| DemoModal.SubmitSpec | Landing/src/components/DemoModal.tsx:69-79 | a submit on an invalid step does nothing; on a valid one it only closes the modal |
| DemoModal.DemoWizard.constructor | Landing/src/components/DemoModal.tsx:21-32 | the wizard opens on the first step with the empty form and nothing touched |
| DemoModal.DemoWizard.HandleInputChange | Landing/src/components/DemoModal.tsx:34-44 | the new state is the input change's, and the step stays within range |
| DemoModal.DemoWizard.HandleNext | Landing/src/components/DemoModal.tsx:59-66 | the new state is Next's, and the step stays within range |
| DemoModal.DemoWizard.HandleBack | Landing/src/components/DemoModal.tsx:67 | the new state is Back's, and the step stays within range |
| DemoModal.DemoWizard.HandleSubmit | Landing/src/components/DemoModal.tsx:69-79 | the new state is the submit's, and the step stays within range |

## Left out

- HTTP, Brave Search calls, page fetching and HTML parsing are inputs. Brave's answer is `LegalSearch.BraveOutcome`, the results it produced or its failure. A fetched page is `DocumentParser.Page`, its title and its content elements. `fetch_document_html` and `extract_document_metadata` are not modelled beyond the three metadata fields `source_url`, `document_id` and `title`.
- The LLM agents and the LangGraph run are inputs: the messages a run returned, or its failure. The `NodeInterrupt` branch of `get_response` is not modelled. That branch (lexora-ai/app/core/research_agent.py:160-191) parses the interrupt's text and uses `_format_approval_message`. The model covers the interrupt that `get_response` builds from the graph state (research_agent.py:121-143).
- Resuming a run that `request_source_approval` interrupted is not modelled. The application never resumes with a resume value: each turn runs the graph again on a rebuilt state. The model states the command the tool builds (`ResearchTools.AwaitingSpec`), which only a resumed execution would return, and the first execution, which raises with the request and writes nothing (`ResearchTools.AwaitingInterrupts`). What the LangGraph run then hands back to `get_response` is the framework's behaviour, and the run's outcome stays an input.
- `Date.now()`, `uuid4()` and `datetime.now()` are parameters. The artifact card's fallback id is a parameter too.
- `legal_concepts_identified` is `list(set(...))` in the source. It is modelled as a set, because the order of a Python set is not determined.
- The Cyrillic key-term regular expression (research_tools.py:89) is left out. Its matches are the input `matches`, and the model keeps their first three.
- Python's Unicode `\w` and `\d` are modelled over ASCII plus the Cyrillic block only, and lower-casing over ASCII and Cyrillic А-Я and Ё.
- Relevance scores are `real`s, so float rounding is not in scope. The word-overlap score of `validate_and_rank_sources` (research_tools.py:279-284) and its reasoning text are a parameter; the 0.3 threshold and the sort are modelled.
- Tool messages are structured values: a reply datatype plus a render function. Long fixed texts are passed in as a wording record. Only the message parts that the model's lemmas speak about are rendered: the artifact XML, the document lists and the ids.
- Ranking.SortByKey: stability is stated only through `Ranking.SortedUnchanged` and the insertion definition. Equal keys are not separately proved to keep their input order.
- The pydantic `max_length` of a message is the predicate `Messages.Admissible`. A longer assistant output is skipped, because building the message raises and the source catches it.
- Some research tools write `completed_stages` as a one-element list. LangGraph's default overwrite applies, so the list is replaced rather than appended to, and the model does the same.
- `ValidationResult` has no `url` field. So the interrupt's source `url` is always `""`, as the source's `getattr` default makes it.
- The search strategy's four-key-term branch can never be reached, because the key terms are cut to three first. The model leaves that branch out.
- Copying to the clipboard, downloading, scrolling, toasts, timers and the submit delays are browser effects and are left out. So are `getTypeColor`, `getStageColor`, `getRelevanceColor` and all styling.
- The FastAPI routers, `api.ts`, the agent constructors, configuration and the presentation-only pages and components are outside the modelled core.
