/**
 * The research workflow's state schema: search and validation records, the
 * versioned artifacts, and the agent state with its declared defaults.
 */
module ResearchState {
  import opened Messages

  datatype SearchResult = SearchResult(
    documentId: string, title: string, snippet: string, url: string,
    documentDate: string, relevanceScore: real)

  datatype ValidationResult = ValidationResult(
    documentId: string, title: string, isRelevant: bool, relevanceScore: real, reasoning: string)

  /** `metadata` holds arbitrary values in the source; the model keeps string values. */
  datatype DocumentContent = DocumentContent(
    documentId: string, title: string, content: string, metadata: map<string, string>, parsingDate: string)

  datatype DocumentSummary = DocumentSummary(
    documentId: string, title: string, summary: string, keyProvisions: seq<string>, relevanceAnalysis: string)

  datatype MultiSearchQuery = MultiSearchQuery(
    query: string, queryType: string, legalConcepts: seq<string>, rationale: string)

  /** One stored version of an artifact; `stage` is one of draft, review, final by convention. */
  datatype ArtifactVersion = ArtifactVersion(
    version: int, content: string, createdAt: string, stage: string, feedback: string)

  /** A version built without a `feedback` argument. */
  function NewVersion(version: int, content: string, createdAt: string, stage: string): (v: ArtifactVersion)
    ensures v.feedback == []
    ensures v.version == version && v.content == content && v.createdAt == createdAt && v.stage == stage
  {
    ArtifactVersion(version, content, createdAt, stage, [])
  }

  datatype Artifact = Artifact(
    id: string, title: string, artifactType: string, currentVersion: int, versions: map<int, ArtifactVersion>)

  /** An artifact built from the three required fields alone. */
  function NewArtifact(id: string, title: string, artifactType: string): (a: Artifact)
    ensures a.id == id && a.title == title && a.artifactType == artifactType
    ensures a.currentVersion == 1 && a.versions == map[]
  {
    Artifact(id, title, artifactType, 1, map[])
  }

  /** `get_current_content`: the current version's content, or "" when that version is not stored. */
  function CurrentContent(a: Artifact): string {
    if a.currentVersion in a.versions then a.versions[a.currentVersion].content else ""
  }

  /** A fresh artifact has no content yet. */
  lemma NewArtifactEmpty(id: string, title: string, artifactType: string)
    ensures CurrentContent(NewArtifact(id, title, artifactType)) == []
  {
  }

  /** Storing a version under the current number makes its content the current content. */
  lemma CurrentContentOfStored(a: Artifact, v: ArtifactVersion)
    ensures CurrentContent(a.(versions := a.versions[a.currentVersion := v])) == v.content
  {
  }

  /** The agent graph's state, field by field. */
  datatype LegalResearchState = LegalResearchState(
    messages: seq<GraphMessage>,
    remainingSteps: int,
    currentUserQuestion: string,
    workflowStage: string,
    workflowPhase: string,
    searchQueriesPlanned: seq<MultiSearchQuery>,
    searchQueriesExecuted: seq<string>,
    searchStrategyRationale: string,
    currentDraftIteration: int,
    totalIterationsNeeded: int,
    draftFeedbackReceived: seq<string>,
    refinementAreas: seq<string>,
    completedStages: seq<string>,
    pendingApproval: bool,
    approvalRequiredFor: string,
    rawSearchResults: seq<SearchResult>,
    validationResults: seq<ValidationResult>,
    approvedDocumentIds: seq<string>,
    rejectedDocumentIds: seq<string>,
    parsedDocuments: map<string, DocumentContent>,
    documentSummaries: map<string, DocumentSummary>,
    legalConceptsIdentified: seq<string>,
    relevantLegalAreas: seq<string>,
    humanFeedback: string,
    lastApprovalRequest: string,
    artifacts: map<string, Artifact>,
    currentArtifactId: string,
    needsAdditionalSearch: bool,
    suggestedQueries: seq<string>)

  /** The state a message list alone builds: every other field takes its declared default. */
  function DefaultState(messages: seq<GraphMessage>): (s: LegalResearchState)
    ensures s.messages == messages
  {
    LegalResearchState(
      messages, 20, "", "multi_search", "research",
      [], [], "", 1, 3, [], [],
      [], false, "",
      [], [], [], [],
      map[], map[],
      [], [],
      "", "",
      map[], "",
      false, [])
  }

  /** Holds of a state when every collection in it is empty. */
  predicate CollectionsEmpty(s: LegalResearchState) {
    s.searchQueriesPlanned == [] && s.searchQueriesExecuted == [] && s.draftFeedbackReceived == []
    && s.refinementAreas == [] && s.completedStages == [] && s.rawSearchResults == []
    && s.validationResults == [] && s.approvedDocumentIds == [] && s.rejectedDocumentIds == []
    && s.parsedDocuments == map[] && s.documentSummaries == map[] && s.legalConceptsIdentified == []
    && s.relevantLegalAreas == [] && s.artifacts == map[] && s.suggestedQueries == []
  }

  /** The state holds the given messages, and the defaults: no approval pending, the first stage, and nothing collected. */
  lemma DefaultStateSpec(messages: seq<GraphMessage>)
    ensures DefaultState(messages).messages == messages
    ensures !DefaultState(messages).pendingApproval
    ensures DefaultState(messages).workflowStage == "multi_search"
    ensures DefaultState(messages).remainingSteps == 20
    ensures DefaultState(messages).currentUserQuestion == [] && DefaultState(messages).currentArtifactId == []
    ensures CollectionsEmpty(DefaultState(messages))
  {
  }
}
