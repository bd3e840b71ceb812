/**
 * The research agent's session wrapper (ResearchAgentWrapper): an in-memory map
 * from session id to history and graph state, the classification and parsing of
 * approval answers, and the interrupt payload sent with a pending approval. The
 * graph run and the interrupt's uuid are parameters.
 */
module ResearchAgent {
  import opened Wrappers
  import opened Text
  import opened Seqs
  import opened Messages
  import opened ResearchState
  import SourceApproval

  // ---------------------------------------------------------------- the `\b\d{6,}\b` scan

  /**
   * Python's `\w` on a `str` pattern, over ASCII and the Cyrillic block: letters,
   * digits, `_`, and every Cyrillic code point except the sign U+0482 and the
   * combining marks U+0483..U+0489.
   */
  predicate PyWordChar(c: char) {
    IsWordChar(c) || (0x400 <= c as int <= 0x481) || (0x48A <= c as int <= 0x4FF)
  }

  /** The end of the run of word characters that starts at `i`. */
  function RunEnd(s: string, i: nat): (j: nat)
    requires i <= |s|
    ensures i <= j <= |s|
    ensures forall k :: i <= k < j ==> PyWordChar(s[k])
    ensures j == |s| || !PyWordChar(s[j])
    decreases |s| - i
  {
    if i < |s| && PyWordChar(s[i]) then RunEnd(s, i + 1) else i
  }

  /** The run end is the first non-word character at or after `i`. */
  lemma RunEndIs(s: string, i: nat, j: nat)
    requires i <= j <= |s|
    requires forall k :: i <= k < j ==> PyWordChar(s[k])
    requires j == |s| || !PyWordChar(s[j])
    ensures RunEnd(s, i) == j
  {
  }

  /** A match of `\b\d{6,}\b` spans `s[a..b]`: six or more digits with no word character on either side. */
  predicate LongNumberAt(s: string, a: nat, b: nat) {
    a < b <= |s| && b - a >= 6
    && (forall k :: a <= k < b ==> IsDigit(s[k]))
    && (a == 0 || !PyWordChar(s[a - 1]))
    && (b == |s| || !PyWordChar(s[b]))
  }

  /** The span of the word run `s[i..j]` when it is a long number. */
  function Hit(s: string, i: nat, j: nat): seq<(nat, nat)>
    requires i <= j <= |s|
  {
    if j - i >= 6 && AllDigits(s[i..j]) then [(i, j)] else []
  }

  /** The spans `re.findall` reports, scanning from `i`: each maximal word run that is all digits and at least six long. */
  function Spans(s: string, i: nat): (r: seq<(nat, nat)>)
    requires i <= |s|
    ensures forall k :: 0 <= k < |r| ==> i <= r[k].0 < r[k].1 <= |s|
    decreases |s| - i
  {
    if i == |s| then []
    else if !PyWordChar(s[i]) then Spans(s, i + 1)
    else Hit(s, i, RunEnd(s, i)) + Spans(s, RunEnd(s, i))
  }

  /** `i` does not fall strictly inside a run of word characters. */
  predicate NotInside(s: string, i: nat) {
    i == 0 || i >= |s| || !PyWordChar(s[i - 1]) || !PyWordChar(s[i])
  }

  /** A word run that starts outside any word run and is a hit is a match. */
  lemma HitMatch(s: string, i: nat)
    requires i < |s| && NotInside(s, i) && PyWordChar(s[i])
    requires Hit(s, i, RunEnd(s, i)) != []
    ensures LongNumberAt(s, i, RunEnd(s, i))
  {
    var j := RunEnd(s, i);
    assert forall k :: i <= k < j ==> s[i..j][k - i] == s[k];
  }

  /** Every reported span is a match. */
  lemma {:induction false} SpansMatch(s: string, i: nat)
    requires i <= |s| && NotInside(s, i)
    ensures forall k :: 0 <= k < |Spans(s, i)| ==> LongNumberAt(s, Spans(s, i)[k].0, Spans(s, i)[k].1)
    decreases |s| - i
  {
    if i < |s| {
      if !PyWordChar(s[i]) {
        SpansMatch(s, i + 1);
      } else {
        var j := RunEnd(s, i);
        SpansMatch(s, j);
        if Hit(s, i, j) != [] {
          HitMatch(s, i);
        }
      }
    }
  }

  /** The spans come in increasing order without overlap. */
  lemma {:induction false} SpansOrdered(s: string, i: nat)
    requires i <= |s|
    ensures forall k, k' :: 0 <= k < k' < |Spans(s, i)| ==> Spans(s, i)[k].1 < Spans(s, i)[k'].0
    decreases |s| - i
  {
    if i < |s| {
      if !PyWordChar(s[i]) {
        SpansOrdered(s, i + 1);
      } else {
        var j := RunEnd(s, i);
        SpansOrdered(s, j);
        var h := Hit(s, i, j);
        if h != [] && Spans(s, j) != [] {
          SpansStartOnWord(s, j);
          assert j < Spans(s, j)[0].0;
        }
      }
    }
  }

  /** Every reported span starts on a word character. */
  lemma {:induction false} SpansStartOnWord(s: string, i: nat)
    requires i <= |s|
    ensures forall k :: 0 <= k < |Spans(s, i)| ==> PyWordChar(s[Spans(s, i)[k].0])
    decreases |s| - i
  {
    if i < |s| {
      if !PyWordChar(s[i]) {
        SpansStartOnWord(s, i + 1);
      } else {
        SpansStartOnWord(s, RunEnd(s, i));
      }
    }
  }

  /** Every match at or after a position outside any word run is reported. */
  lemma {:induction false} SpansComplete(s: string, i: nat, a: nat, b: nat)
    requires i <= |s| && NotInside(s, i)
    requires LongNumberAt(s, a, b) && i <= a
    ensures (a, b) in Spans(s, i)
    decreases |s| - i
  {
    assert PyWordChar(s[a]);
    if !PyWordChar(s[i]) {
      SpansComplete(s, i + 1, a, b);
    } else {
      var j := RunEnd(s, i);
      if a == i {
        RunEndIs(s, i, b);
        assert forall k :: 0 <= k < b - a ==> s[a..b][k] == s[a + k];
        assert Hit(s, i, j) == [(a, b)];
      } else {
        assert a >= j;
        SpansComplete(s, j, a, b);
      }
    }
  }

  /** Fewer than six characters hold no match. */
  lemma {:induction false} SpansShort(s: string, i: nat)
    requires i <= |s| && |s| - i < 6
    ensures Spans(s, i) == []
    decreases |s| - i
  {
    if i < |s| {
      if !PyWordChar(s[i]) {
        SpansShort(s, i + 1);
      } else {
        SpansShort(s, RunEnd(s, i));
      }
    }
  }

  function Shift(spans: seq<(nat, nat)>, d: nat): (r: seq<(nat, nat)>)
    ensures |r| == |spans|
  {
    seq(|spans|, k requires 0 <= k < |spans| => (spans[k].0 + d, spans[k].1 + d))
  }

  lemma {:induction false} RunEndShift(p: string, t: string, i: nat)
    requires i <= |t|
    ensures RunEnd(p + t, |p| + i) == |p| + RunEnd(t, i)
  {
    var j := RunEnd(t, i);
    assert forall k :: i <= k < j ==> (p + t)[|p| + k] == t[k];
    RunEndIs(p + t, |p| + i, |p| + j);
  }

  /** The scan looks only forward: text before the scanned part shifts the spans and nothing else. */
  lemma {:induction false} SpansShift(p: string, t: string, i: nat)
    requires i <= |t|
    ensures Spans(p + t, |p| + i) == Shift(Spans(t, i), |p|)
    decreases |t| - i
  {
    var s := p + t;
    if i < |t| {
      assert s[|p| + i] == t[i];
      if !PyWordChar(t[i]) {
        SpansShift(p, t, i + 1);
      } else {
        var j := RunEnd(t, i);
        RunEndShift(p, t, i);
        SpansShift(p, t, j);
        SpansRunShift(p, t, i, j);
      }
    }
  }

  /** One run of word characters in the shifted scan, with the rest of the scan already shifted. */
  lemma SpansRunShift(p: string, t: string, i: nat, j: nat)
    requires i < |t| && PyWordChar(t[i]) && j == RunEnd(t, i)
    requires RunEnd(p + t, |p| + i) == |p| + j
    requires Spans(p + t, |p| + j) == Shift(Spans(t, j), |p|)
    ensures Spans(p + t, |p| + i) == Shift(Spans(t, i), |p|)
  {
    var s := p + t;
    assert s[|p| + i] == t[i];
    HitShift(p, t, i, j);
    ShiftAppend(Hit(t, i, j), Spans(t, j), |p|);
  }

  /** A run reported in `t` is reported, shifted, in `p + t`. */
  lemma HitShift(p: string, t: string, i: nat, j: nat)
    requires i <= j <= |t|
    ensures Hit(p + t, |p| + i, |p| + j) == Shift(Hit(t, i, j), |p|)
  {
    assert (p + t)[|p| + i..|p| + j] == t[i..j];
  }

  lemma ShiftAppend(a: seq<(nat, nat)>, b: seq<(nat, nat)>, d: nat)
    ensures Shift(a + b, d) == Shift(a, d) + Shift(b, d)
  {
  }

  predicate InBounds(s: string, spans: seq<(nat, nat)>) {
    forall k :: 0 <= k < |spans| ==> spans[k].0 <= spans[k].1 <= |s|
  }

  function Slices(s: string, spans: seq<(nat, nat)>): (r: seq<string>)
    requires InBounds(s, spans)
    ensures |r| == |spans|
  {
    seq(|spans|, k requires 0 <= k < |spans| => s[spans[k].0..spans[k].1])
  }

  /** `re.findall(r'\b\d{6,}\b', s)`. */
  function LongNumbers(s: string): (r: seq<string>)
  {
    Slices(s, Spans(s, 0))
  }

  /** What `findall` returns: exactly the matches, in the order they occur. */
  lemma LongNumbersSpec(s: string)
    ensures forall k :: 0 <= k < |Spans(s, 0)| ==> LongNumberAt(s, Spans(s, 0)[k].0, Spans(s, 0)[k].1)
    ensures forall k, k' :: 0 <= k < k' < |Spans(s, 0)| ==> Spans(s, 0)[k].1 < Spans(s, 0)[k'].0
    ensures forall a: nat, b: nat :: LongNumberAt(s, a, b) ==> (a, b) in Spans(s, 0)
    ensures forall k :: 0 <= k < |LongNumbers(s)| ==> LongNumbers(s)[k] == s[Spans(s, 0)[k].0..Spans(s, 0)[k].1]
  {
    SpansMatch(s, 0);
    SpansOrdered(s, 0);
    forall a: nat, b: nat | LongNumberAt(s, a, b) ensures (a, b) in Spans(s, 0) {
      SpansComplete(s, 0, a, b);
    }
  }

  /** Each number found is six or more digits. */
  lemma LongNumbersDigits(s: string)
    ensures forall k :: 0 <= k < |LongNumbers(s)| ==> |LongNumbers(s)[k]| >= 6 && AllDigits(LongNumbers(s)[k])
  {
    LongNumbersSpec(s);
    forall k | 0 <= k < |LongNumbers(s)| ensures |LongNumbers(s)[k]| >= 6 && AllDigits(LongNumbers(s)[k]) {
      var t := Spans(s, 0)[k];
      assert forall m :: 0 <= m < t.1 - t.0 ==> LongNumbers(s)[k][m] == s[t.0 + m];
    }
  }

  // ---------------------------------------------------------------- classification and parsing

  const ApprovalKeywords: seq<string> := ["approved", "approve", "select", "choose", "yes", "ok", "confirm"]

  /** `any(keyword in s for keyword in keywords)`. */
  predicate AnyContained(s: string, keywords: seq<string>)
    decreases |keywords|
  {
    |keywords| > 0 && (Contains(s, keywords[0]) || AnyContained(s, keywords[1..]))
  }

  lemma {:induction false} AnyContainedIff(s: string, keywords: seq<string>)
    ensures AnyContained(s, keywords) <==> exists k :: 0 <= k < |keywords| && Contains(s, keywords[k])
    decreases |keywords|
  {
    if |keywords| > 0 {
      AnyContainedIff(s, keywords[1..]);
      if AnyContained(s, keywords[1..]) {
        var k :| 0 <= k < |keywords[1..]| && Contains(s, keywords[1..][k]);
        assert Contains(s, keywords[k + 1]);
      }
      if exists k :: 0 <= k < |keywords| && Contains(s, keywords[k]) {
        var k :| 0 <= k < |keywords| && Contains(s, keywords[k]);
        if k > 0 {
          assert keywords[1..][k - 1] == keywords[k];
        }
      }
    }
  }

  /** `_is_approval_message`: a listed keyword in the lowered text, or a run of six or more digits. */
  predicate IsApproval(message: string) {
    AnyContained(Lower(message), ApprovalKeywords) || |LongNumbers(message)| > 0
  }

  /** The classification, stated with quantifiers over the keywords and the matches. */
  lemma IsApprovalIff(message: string)
    ensures IsApproval(message) <==>
      (exists k :: 0 <= k < |ApprovalKeywords| && Contains(Lower(message), ApprovalKeywords[k]))
      || (exists a: nat, b: nat :: LongNumberAt(message, a, b))
  {
    AnyContainedIff(Lower(message), ApprovalKeywords);
    LongNumbersSpec(message);
    if |LongNumbers(message)| > 0 {
      assert LongNumberAt(message, Spans(message, 0)[0].0, Spans(message, 0)[0].1);
    }
  }

  /** "все", Russian for "all". */
  const AllRu: string := "\U{0432}\U{0441}\U{0435}"

  /** `_parse_approval_message`: the first command word found, in priority order, else the long numbers. */
  function ParseApproval(message: string): seq<string> {
    var lowered := Trim(Py, Lower(message));
    if Contains(lowered, "all") || Contains(lowered, AllRu) then ["all"]
    else if Contains(lowered, "retry") then ["retry"]
    else if Contains(lowered, "broaden") then ["broaden"]
    else if Contains(lowered, "proceed") then ["proceed"]
    else if Contains(lowered, "none") || Contains(lowered, "skip") then []
    else LongNumbers(message)
  }

  /** None of the command words occurs in the lowered, stripped answer. */
  predicate NoCommandWord(lowered: string) {
    !Contains(lowered, "all") && !Contains(lowered, AllRu) && !Contains(lowered, "retry")
    && !Contains(lowered, "broaden") && !Contains(lowered, "proceed")
    && !Contains(lowered, "none") && !Contains(lowered, "skip")
  }

  /** Without a command word the answer is the list of long numbers, each six or more digits, in order. */
  lemma ParseApprovalNumbers(message: string)
    requires NoCommandWord(Trim(Py, Lower(message)))
    ensures ParseApproval(message) == LongNumbers(message)
    ensures forall k :: 0 <= k < |ParseApproval(message)| ==> |ParseApproval(message)[k]| >= 6 && AllDigits(ParseApproval(message)[k])
  {
    LongNumbersDigits(message);
  }

  /** The command words in priority order: the first one present decides the answer. */
  lemma ParseApprovalCommands(message: string)
    ensures var lowered := Trim(Py, Lower(message));
      var all := Contains(lowered, "all") || Contains(lowered, AllRu);
      var retry := Contains(lowered, "retry");
      var broaden := Contains(lowered, "broaden");
      var proceed := Contains(lowered, "proceed");
      (all ==> ParseApproval(message) == ["all"])
      && (!all && retry ==> ParseApproval(message) == ["retry"])
      && (!all && !retry && broaden ==> ParseApproval(message) == ["broaden"])
      && (!all && !retry && !broaden && proceed ==> ParseApproval(message) == ["proceed"])
      && (!all && !retry && !broaden && !proceed && (Contains(lowered, "none") || Contains(lowered, "skip")) ==>
            ParseApproval(message) == [])
  {
  }

  /** "all", the answer the UI sends when every offered source is selected, is not an approval. */
  lemma AllNotApproval()
    ensures !IsApproval("all")
  {
    NotApproval("all", [1, 1, 0, 0, 0, 0, 0]);
  }

  /** "none", the answer the UI sends for an empty selection, is not an approval. */
  lemma NoneNotApproval()
    ensures !IsApproval("none")
  {
    NotApproval("none", [0, 0, 0, 0, 0, 1, 0]);
  }

  /**
   * A short lowercase text is an approval only if it holds a keyword;
   * `ApprovalKeywords[k][at[k]]` is a character of keyword k that it lacks.
   */
  lemma NotApproval(s: string, at: seq<nat>)
    requires |at| == |ApprovalKeywords|
    requires forall k :: 0 <= k < |at| ==> at[k] < |ApprovalKeywords[k]| && ApprovalKeywords[k][at[k]] !in s
    requires forall i :: 0 <= i < |s| ==> 'a' <= s[i] <= 'z'
    requires |s| < 6
    ensures !IsApproval(s)
  {
    assert Lower(s) == s;
    forall k | 0 <= k < |ApprovalKeywords| ensures !Contains(s, ApprovalKeywords[k]) {
      AbsentChar(s, ApprovalKeywords[k], ApprovalKeywords[k][at[k]]);
    }
    AnyContainedIff(s, ApprovalKeywords);
    SpansShort(s, 0);
  }

  // ---------------------------------------------------------------- the interrupt payload

  /** The `interrupt_type` of every payload this wrapper builds. */
  const SourceApprovalType: string := "source_approval"

  /** `interrupt_data`; the last two keys are present only in the no-relevant-sources payload. */
  datatype PayloadData = PayloadData(
    sources: seq<SourceApproval.Source>, totalSources: nat, question: string,
    noRelevantSources: Option<bool>, totalFound: Option<nat>)

  /** An interrupt of type `SourceApprovalType`: its id and data. */
  datatype Payload = Payload(interruptId: string, data: PayloadData)

  /** The frontend record of a validation result; a validation result has no `url`, so it is "". */
  function SourceOf(v: ValidationResult): SourceApproval.Source {
    SourceApproval.Source(v.documentId, v.title, v.relevanceScore, v.reasoning, "")
  }

  /** The relevant results, in order, as frontend records. */
  function RelevantSources(results: seq<ValidationResult>): (r: seq<SourceApproval.Source>)
    ensures |r| <= |results|
    ensures forall i :: 0 <= i < |r| ==> r[i].url == []
    decreases |results|
  {
    if |results| == 0 then []
    else RelevantSources(results[..|results| - 1]) + RelevantOne(results[|results| - 1])
  }

  function RelevantOne(v: ValidationResult): seq<SourceApproval.Source> {
    if v.isRelevant then [SourceOf(v)] else []
  }

  /** A source is offered exactly when some relevant result carries its fields. */
  lemma {:induction false} RelevantSourcesSpec(results: seq<ValidationResult>)
    ensures forall x :: x in RelevantSources(results) <==> exists v :: v in results && v.isRelevant && x == SourceOf(v)
    decreases |results|
  {
    if |results| > 0 {
      var n := |results| - 1;
      RelevantSourcesSpec(results[..n]);
      assert results == results[..n] + [results[n]];
    }
  }

  /** `_create_source_approval_interrupt`: nothing without validation results, else the relevant sources and their count. */
  function SourceApprovalInterrupt(state: LegalResearchState, interruptId: string): (p: Option<Payload>)
    ensures p.None? <==> state.validationResults == []
    ensures p.Some? ==> p.value.data.totalSources == |p.value.data.sources| && p.value.interruptId == interruptId
    ensures p.Some? ==> p.value.data.sources == RelevantSources(state.validationResults)
  {
    if state.validationResults == [] then None
    else
      var sources := RelevantSources(state.validationResults);
      Some(Payload(interruptId, PayloadData(sources, |sources|, state.currentUserQuestion, None, None)))
  }

  /** The loop that builds the payload. */
  method CreateSourceApprovalInterrupt(state: LegalResearchState, interruptId: string) returns (p: Option<Payload>)
    ensures p == SourceApprovalInterrupt(state, interruptId)
  {
    var results := state.validationResults;
    if results == [] {
      return None;
    }
    var sources: seq<SourceApproval.Source> := [];
    var i := 0;
    while i < |results|
      invariant 0 <= i <= |results|
      invariant sources == RelevantSources(results[..i])
    {
      assert results[..i + 1][..i] == results[..i];
      if results[i].isRelevant {
        sources := sources + [SourceOf(results[i])];
      }
      i := i + 1;
    }
    assert results[..i] == results;
    p := Some(Payload(interruptId, PayloadData(sources, |sources|, state.currentUserQuestion, None, None)));
  }

  /** The payload for a pending approval in the no-relevant-sources stage: no sources, a zero total, and the number found. */
  function NoSourcesPayload(result: LegalResearchState, interruptId: string): (p: Payload)
    ensures p.data.sources == [] && p.data.totalSources == 0
    ensures p.data.noRelevantSources == Some(true) && p.data.totalFound == Some(|result.validationResults|)
  {
    Payload(interruptId, PayloadData([], 0, result.currentUserQuestion, Some(true), Some(|result.validationResults|)))
  }

  /** The interrupt attached to a response; an empty payload is falsy and attaches nothing. */
  function InterruptOf(result: LegalResearchState, interruptId: string): (p: Option<Payload>)
    ensures p.Some? ==> result.pendingApproval
    ensures p.Some? && result.workflowStage == "no_relevant_sources" ==> p.value.data.totalSources == 0
    ensures p.Some? && result.workflowStage != "no_relevant_sources" ==> p.value.data.totalSources == |p.value.data.sources|
  {
    if !result.pendingApproval then None
    else if result.workflowStage == "no_relevant_sources" then Some(NoSourcesPayload(result, interruptId))
    else SourceApprovalInterrupt(result, interruptId)
  }

  // ---------------------------------------------------------------- the session store

  /** A session: the history, the graph state once a turn has begun, and a slot for a pending interrupt. */
  datatype Session = Session(messages: seq<Message>, state: Option<LegalResearchState>, pendingInterrupt: Option<Payload>)

  const FreshSession: Session := Session([], None, None)

  /** The session stored under `id`, or the fresh one an unknown id gets. */
  function Opened(sessions: map<string, Session>, id: string): (s: Session)
    ensures id !in sessions ==> s.messages == [] && s.state.None? && s.pendingInterrupt.None?
  {
    if id in sessions then sessions[id] else FreshSession
  }

  /** What the graph run did: returned a new state, or raised an error with the given text. */
  datatype GraphOutcome = Completed(result: LegalResearchState) | Raised(error: string)

  /** The response body: the messages and, when truthy, the interrupt fields. */
  datatype Response = Response(messages: seq<Message>, interrupt: Option<Payload>)

  /** The state dictionary of a first turn, key by key. */
  function InitialState(converted: seq<GraphMessage>, question: string): LegalResearchState {
    DefaultState(converted).(
      currentUserQuestion := question, remainingSteps := 20, workflowStage := "multi_search",
      searchQueriesPlanned := [], searchQueriesExecuted := [], rawSearchResults := [],
      validationResults := [], approvedDocumentIds := [], rejectedDocumentIds := [],
      parsedDocuments := map[], documentSummaries := map[], legalConceptsIdentified := [],
      relevantLegalAreas := [], artifacts := map[], currentArtifactId := "", completedStages := [],
      pendingApproval := false, approvalRequiredFor := "", humanFeedback := "",
      lastApprovalRequest := "", needsAdditionalSearch := false, suggestedQueries := [])
  }

  /** The literal first-turn dictionary agrees with the schema's defaults. */
  lemma InitialStateIsDefault(converted: seq<GraphMessage>, question: string)
    ensures InitialState(converted, question) == DefaultState(converted).(currentUserQuestion := question)
  {
  }

  /** The lowered content of the last incoming message, or "" when there is none. */
  function Latest(incoming: seq<Message>): string {
    if |incoming| > 0 then Lower(incoming[|incoming| - 1].content) else ""
  }

  /** The state handed to the graph. */
  function Prepared(state: Option<LegalResearchState>, incoming: seq<Message>, converted: seq<GraphMessage>): LegalResearchState {
    if state.None? then InitialState(converted, if |incoming| > 0 then incoming[0].content else "")
    else if |incoming| == 0 then state.value.(messages := converted)
    else
      var approved := IsApproval(Latest(incoming));
      state.value.(
        messages := converted, humanFeedback := incoming[|incoming| - 1].content,
        approvedDocumentIds := if approved then ParseApproval(Latest(incoming)) else state.value.approvedDocumentIds,
        pendingApproval := if approved then false else state.value.pendingApproval,
        workflowStage := if approved then "sources_approved" else state.value.workflowStage)
  }

  /** A later turn hands the graph the converted history and the last message as feedback. */
  lemma PreparedFeedback(state: LegalResearchState, incoming: seq<Message>, converted: seq<GraphMessage>)
    requires |incoming| > 0
    ensures Prepared(Some(state), incoming, converted).messages == converted
    ensures Prepared(Some(state), incoming, converted).humanFeedback == incoming[|incoming| - 1].content
  {
  }

  /** A later turn whose last message is an approval records the parsed ids and leaves the approval stage; any other turn keeps them. */
  lemma PreparedApproval(state: LegalResearchState, incoming: seq<Message>, converted: seq<GraphMessage>)
    requires |incoming| > 0
    ensures var p := Prepared(Some(state), incoming, converted);
      (IsApproval(Latest(incoming)) ==>
            p.approvedDocumentIds == ParseApproval(Latest(incoming)) && !p.pendingApproval && p.workflowStage == "sources_approved")
      && (!IsApproval(Latest(incoming)) ==>
            p.approvedDocumentIds == state.approvedDocumentIds && p.pendingApproval == state.pendingApproval
            && p.workflowStage == state.workflowStage)
  {
  }

  /** The state building of `get_response`, step by step. */
  method PrepareState(state: Option<LegalResearchState>, incoming: seq<Message>, converted: seq<GraphMessage>)
    returns (prepared: LegalResearchState)
    ensures prepared == Prepared(state, incoming, converted)
  {
    var latest := Latest(incoming);
    var isApproval := IsApproval(latest);
    if state.None? {
      prepared := InitialState(converted, if |incoming| > 0 then incoming[0].content else "");
    } else {
      prepared := state.value.(messages := converted);
      if |incoming| > 0 {
        prepared := prepared.(humanFeedback := incoming[|incoming| - 1].content);
        if isApproval {
          prepared := prepared.(approvedDocumentIds := ParseApproval(latest), pendingApproval := false,
                                workflowStage := "sources_approved");
        }
      }
    }
  }

  /** A result message kept for the reply: ai-typed, with stripped content non-empty and within the length bound. */
  function Candidate(m: GraphMessage): Option<Message> {
    var clean := Trim(Py, m.content);
    if m.kind == AiKind && clean != [] && Admissible(clean) then Some(Message(Assistant, clean)) else None
  }

  function Candidates(ms: seq<GraphMessage>): seq<Message>
    decreases |ms|
  {
    if |ms| == 0 then []
    else (if Candidate(ms[0]).Some? then [Candidate(ms[0]).value] else []) + Candidates(ms[1..])
  }

  /** The new assistant messages, each added to the history as it is found. */
  function Harvest(history: seq<Message>, ms: seq<GraphMessage>): (r: seq<Message>)
    ensures forall i :: 0 <= i < |r| ==> r[i].role == Assistant && Admissible(r[i].content)
    decreases |ms|
  {
    if |ms| == 0 then []
    else if Candidate(ms[0]).Some? && Candidate(ms[0]).value !in history
    then [Candidate(ms[0]).value] + Harvest(history + [Candidate(ms[0]).value], ms[1..])
    else Harvest(history, ms[1..])
  }

  /** The history after the scan is the history with the candidates appended where absent. */
  lemma {:induction false} HarvestIsAppendNew(history: seq<Message>, ms: seq<GraphMessage>)
    ensures history + Harvest(history, ms) == AppendNew(history, Candidates(ms))
    decreases |ms|
  {
    if |ms| > 0 {
      var c := Candidate(ms[0]);
      if c.Some? {
        assert Candidates(ms) == [c.value] + Candidates(ms[1..]);
        assert Candidates(ms)[1..] == Candidates(ms[1..]);
        if c.value !in history {
          HarvestIsAppendNew(history + [c.value], ms[1..]);
        } else {
          HarvestIsAppendNew(history, ms[1..]);
        }
      } else {
        assert Candidates(ms) == Candidates(ms[1..]);
        HarvestIsAppendNew(history, ms[1..]);
      }
    }
  }

  /** The loop over the result's messages. */
  method HarvestReplies(history: seq<Message>, ms: seq<GraphMessage>) returns (replies: seq<Message>, updated: seq<Message>)
    ensures replies == Harvest(history, ms) && updated == history + replies
  {
    replies := [];
    updated := history;
    var i := 0;
    while i < |ms|
      invariant 0 <= i <= |ms|
      invariant updated == history + replies
      invariant replies + Harvest(updated, ms[i..]) == Harvest(history, ms)
    {
      assert ms[i..][1..] == ms[i + 1..];
      var clean := Trim(Py, ms[i].content);
      if ms[i].kind == AiKind && clean != [] && Admissible(clean) {
        var m := Message(Assistant, clean);
        if m !in updated {
          replies := replies + [m];
          updated := updated + [m];
        }
      }
      i := i + 1;
    }
  }

  /** The session once the incoming messages are recorded and the graph state is prepared. */
  function Begun(session: Session, incoming: seq<Message>): Session {
    var history := AppendNew(session.messages, incoming);
    Session(history, Some(Prepared(session.state, incoming, ToGraph(history))), session.pendingInterrupt)
  }

  /** The session after the graph run: on success the result becomes the state and the new replies join the history. */
  function Finished(begun: Session, outcome: GraphOutcome): Session {
    match outcome
    case Raised(_) => begun
    case Completed(result) => Session(begun.messages + Harvest(begun.messages, result.messages), Some(result), begun.pendingInterrupt)
  }

  const ErrorPrefix: string := "Sorry, I encountered an error: "

  /** The response: the last new assistant message with the interrupt, or the error text. */
  function Answer(begun: Session, outcome: GraphOutcome, interruptId: string): Response {
    match outcome
    case Raised(e) => Response([Message(Assistant, ErrorPrefix + e)], None)
    case Completed(result) =>
      var replies := Harvest(begun.messages, result.messages);
      Response(if |replies| > 0 then [replies[|replies| - 1]] else [], InterruptOf(result, interruptId))
  }

  /**
   * A turn never shrinks the history and never introduces a repetition; the incoming
   * messages end up in it, and whatever it gained was absent before.
   */
  lemma TurnHistory(session: Session, incoming: seq<Message>, outcome: GraphOutcome)
    requires Distinct(session.messages)
    ensures var h := Finished(Begun(session, incoming), outcome).messages;
      session.messages <= h && Distinct(h)
      && (forall m :: m in incoming ==> m in h)
      && (forall i :: |session.messages| <= i < |h| ==> h[i] !in session.messages)
  {
    var b := Begun(session, incoming);
    AppendNewSpec(session.messages, incoming);
    var h := Finished(b, outcome).messages;
    if outcome.Completed? {
      HarvestIsAppendNew(b.messages, outcome.result.messages);
      AppendNewSpec(b.messages, Candidates(outcome.result.messages));
      forall i | |session.messages| <= i < |h| ensures h[i] !in session.messages {
        if i >= |b.messages| {
          assert h[i] !in b.messages;
        } else {
          assert h[i] == b.messages[i];
        }
      }
    }
  }

  /**
   * A response carries at most one message. After a completed run it is the last
   * new assistant message, which also ends the stored history.
   */
  lemma AnswerAtMostOne(session: Session, incoming: seq<Message>, outcome: GraphOutcome, interruptId: string)
    ensures var b := Begun(session, incoming);
      var r := Answer(b, outcome, interruptId);
      var h := Finished(b, outcome).messages;
      |r.messages| <= 1
      && (outcome.Completed? && |r.messages| == 1 ==>
            |h| > 0 && r.messages[0] == h[|h| - 1] && r.messages[0] !in b.messages
            && r.messages[0].role == Assistant && Admissible(r.messages[0].content))
      && (outcome.Raised? ==> r.interrupt.None?)
  {
    var b := Begun(session, incoming);
    if outcome.Completed? {
      var replies := Harvest(b.messages, outcome.result.messages);
      if |replies| > 0 {
        HarvestIsAppendNew(b.messages, outcome.result.messages);
        AppendNewSpec(b.messages, Candidates(outcome.result.messages));
        var h := b.messages + replies;
        assert h[|h| - 1] == replies[|replies| - 1];
      }
    }
  }

  /** The first half of `get_response`: record the incoming messages and prepare the graph state. */
  method BeginTurn(session: Session, incoming: seq<Message>) returns (begun: Session)
    ensures begun == Begun(session, incoming)
  {
    var history := AppendAbsent(session.messages, incoming);
    var converted := ConvertHistory(history);
    var state := PrepareState(session.state, incoming, converted);
    begun := Session(history, Some(state), session.pendingInterrupt);
  }

  /** The second half of `get_response`: store the run's result and build the response. */
  method FinishTurn(begun: Session, outcome: GraphOutcome, interruptId: string) returns (finished: Session, response: Response)
    ensures finished == Finished(begun, outcome)
    ensures response == Answer(begun, outcome, interruptId)
  {
    match outcome {
      case Raised(e) =>
        finished := begun;
        response := Response([Message(Assistant, ErrorPrefix + e)], None);
      case Completed(result) =>
        var replies, updated := HarvestReplies(begun.messages, result.messages);
        var payload: Option<Payload> := None;
        if result.pendingApproval {
          if result.workflowStage == "no_relevant_sources" {
            payload := Some(NoSourcesPayload(result, interruptId));
          } else {
            payload := CreateSourceApprovalInterrupt(result, interruptId);
          }
        }
        finished := Session(updated, Some(result), begun.pendingInterrupt);
        response := Response(if |replies| > 0 then [replies[|replies| - 1]] else [], payload);
    }
  }

  class ResearchAgentWrapper {
    var sessions: map<string, Session>

    /** Every stored history is free of repetitions. */
    predicate Valid()
      reads this
    {
      forall id :: id in sessions ==> Distinct(sessions[id].messages)
    }

    constructor ()
      ensures sessions == map[] && Valid()
    {
      sessions := map[];
    }

    /** `get_response`, with the graph run and the interrupt uuid given. */
    method GetResponse(incoming: seq<Message>, sessionId: string, outcome: GraphOutcome, interruptId: string)
      returns (response: Response)
      requires Valid()
      modifies this
      ensures Valid()
      ensures sessions == old(sessions)[sessionId := Finished(Begun(Opened(old(sessions), sessionId), incoming), outcome)]
      ensures response == Answer(Begun(Opened(old(sessions), sessionId), incoming), outcome, interruptId)
    {
      var session := Opened(sessions, sessionId);
      var begun := BeginTurn(session, incoming);
      var finished;
      finished, response := FinishTurn(begun, outcome, interruptId);
      TurnHistory(session, incoming, outcome);
      sessions := sessions[sessionId := finished];
    }

    /** `get_session_history`: the stored history, or [] for an unknown id. */
    method GetSessionHistory(sessionId: string) returns (history: seq<Message>)
      ensures sessionId in sessions ==> history == sessions[sessionId].messages
      ensures sessionId !in sessions ==> history == []
    {
      if sessionId in sessions {
        history := sessions[sessionId].messages;
      } else {
        history := [];
      }
    }

    /** `clear_session`: reports whether the session existed, and removes it. */
    method ClearSession(sessionId: string) returns (existed: bool)
      requires Valid()
      modifies this
      ensures existed <==> sessionId in old(sessions)
      ensures sessions == old(sessions) - {sessionId}
      ensures Valid()
    {
      existed := sessionId in sessions;
      if existed {
        sessions := sessions - {sessionId};
      }
    }
  }
}
