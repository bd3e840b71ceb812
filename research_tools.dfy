/**
 * The research agent's search tools: `execute_multi_search` (run the planned
 * queries not yet run and merge the results, first occurrence of each document
 * id kept), `validate_and_rank_sources` (score each result, mark it relevant at
 * 0.3 and sort by descending score) and `request_source_approval` (ask the
 * user to approve the relevant sources). The search service's answer per query, the overlap score
 * and its reasoning text, and float formatting are parameters.
 */
module ResearchTools {
  import opened Wrappers
  import opened Text
  import opened ResearchState
  import Ranking
  import LegalSearch

  /* ---------- execute_multi_search ---------- */

  /** What the legal search service answers for one query (`LegalSearch.SearchLegalDocuments` of what Brave Search did). */
  type SearchResponse = LegalSearch.SearchResponse

  /** A response that counts: the search succeeded and returned documents. */
  predicate Found(r: SearchResponse) {
    r.successful && r.documents != []
  }

  /** The documents one plan contributes: none when its query ran on an earlier call or found nothing. */
  function PlanResults(p: MultiSearchQuery, executed: seq<string>, search: string -> SearchResponse): seq<SearchResult> {
    if p.query in executed || !Found(search(p.query)) then [] else search(p.query).documents
  }

  /** The query one plan records as executed. */
  function PlanQuery(p: MultiSearchQuery, executed: seq<string>, search: string -> SearchResponse): seq<string> {
    if p.query in executed || !Found(search(p.query)) then [] else [p.query]
  }

  /** `new_results`: the documents of every plan run on this call, in plan order. */
  function NewResults(plans: seq<MultiSearchQuery>, executed: seq<string>, search: string -> SearchResponse): seq<SearchResult>
    decreases |plans|
  {
    if |plans| == 0 then []
    else NewResults(plans[..|plans| - 1], executed, search) + PlanResults(plans[|plans| - 1], executed, search)
  }

  /** `executed_queries`: the queries run on this call that found documents, in plan order. */
  function NewlyExecuted(plans: seq<MultiSearchQuery>, executed: seq<string>, search: string -> SearchResponse): seq<string>
    decreases |plans|
  {
    if |plans| == 0 then []
    else NewlyExecuted(plans[..|plans| - 1], executed, search) + PlanQuery(plans[|plans| - 1], executed, search)
  }

  /**
   * A query is recorded exactly when some plan carries it, it was not executed
   * before, and its search found documents: queries already executed are skipped.
   */
  lemma {:induction false} NewlyExecutedSpec(plans: seq<MultiSearchQuery>, executed: seq<string>, search: string -> SearchResponse)
    ensures forall q :: q in NewlyExecuted(plans, executed, search) <==>
      q !in executed && Found(search(q)) && exists p :: p in plans && p.query == q
    decreases |plans|
  {
    if |plans| > 0 {
      var n := |plans| - 1;
      NewlyExecutedSpec(plans[..n], executed, search);
      assert plans == plans[..n] + [plans[n]];
    }
  }

  /** The ids of a list of results. */
  function IdsOf(rs: seq<SearchResult>): set<string> {
    set r | r in rs :: r.documentId
  }

  /** The last result, kept when its id did not occur before it. */
  function KeepIfNew(r: SearchResult, before: seq<SearchResult>): seq<SearchResult> {
    if r.documentId in IdsOf(before) then [] else [r]
  }

  /** The results with every repeated document id dropped after its first occurrence. */
  function Unique(rs: seq<SearchResult>): (u: seq<SearchResult>)
    ensures |u| <= |rs|
    decreases |rs|
  {
    if |rs| == 0 then [] else Unique(rs[..|rs| - 1]) + KeepIfNew(rs[|rs| - 1], rs[..|rs| - 1])
  }

  predicate DistinctIds(rs: seq<SearchResult>) {
    forall i, j :: 0 <= i < j < |rs| ==> rs[i].documentId != rs[j].documentId
  }

  /** `rs[i]` is the first result carrying its id. */
  predicate FirstOfItsId(rs: seq<SearchResult>, i: nat) {
    i < |rs| && forall j :: 0 <= j < i ==> rs[j].documentId != rs[i].documentId
  }

  lemma IdsOfAppend(a: seq<SearchResult>, b: seq<SearchResult>)
    ensures IdsOf(a + b) == IdsOf(a) + IdsOf(b)
  {
    assert forall r :: r in a + b <==> r in a || r in b;
  }

  /** De-duplication keeps one result per id and loses no id. */
  lemma {:induction false} UniqueSpec(rs: seq<SearchResult>)
    ensures DistinctIds(Unique(rs))
    ensures IdsOf(Unique(rs)) == IdsOf(rs)
    decreases |rs|
  {
    if |rs| > 0 {
      UniqueSpec(rs[..|rs| - 1]);
      UniqueIdsStep(rs);
      UniqueDistinctStep(rs);
    }
  }

  /** Appending a result adds its id to the ids kept. */
  lemma UniqueIdsStep(rs: seq<SearchResult>)
    requires |rs| > 0 && IdsOf(Unique(rs[..|rs| - 1])) == IdsOf(rs[..|rs| - 1])
    ensures IdsOf(Unique(rs)) == IdsOf(rs)
  {
    var n := |rs| - 1;
    var pre := rs[..n];
    var up, tail := Unique(pre), KeepIfNew(rs[n], pre);
    assert Unique(rs) == up + tail;
    SplitLast(rs);
    IdsKeepIfNew(pre, up, rs[n]);
  }

  /** A non-empty list is its prefix and its last result. */
  lemma SplitLast(rs: seq<SearchResult>)
    requires |rs| > 0
    ensures rs == rs[..|rs| - 1] + [rs[|rs| - 1]]
  {
  }

  /** Keeping the last result only when its id is new adds its id to a list with the prefix's ids. */
  lemma IdsKeepIfNew(pre: seq<SearchResult>, u: seq<SearchResult>, last: SearchResult)
    requires IdsOf(u) == IdsOf(pre)
    ensures IdsOf(u + KeepIfNew(last, pre)) == IdsOf(pre + [last])
  {
    IdsOfAppend(pre, [last]);
    IdsOfOne(last);
    IdsOfAppend(u, KeepIfNew(last, pre));
  }

  lemma IdsOfOne(r: SearchResult)
    ensures IdsOf([r]) == {r.documentId} && IdsOf([]) == {}
  {
    assert r in [r];
  }

  /** Appending a result keeps the kept ids distinct. */
  lemma UniqueDistinctStep(rs: seq<SearchResult>)
    requires |rs| > 0 && IdsOf(Unique(rs[..|rs| - 1])) == IdsOf(rs[..|rs| - 1])
    requires DistinctIds(Unique(rs[..|rs| - 1]))
    ensures DistinctIds(Unique(rs))
  {
    var n := |rs| - 1;
    var pre := rs[..n];
    var up, tail := Unique(pre), KeepIfNew(rs[n], pre);
    assert Unique(rs) == up + tail;
    if rs[n].documentId !in IdsOf(pre) {
      DistinctSnoc(up, rs[n]);
    } else {
      assert up + tail == up;
    }
  }

  /** A result whose id is new keeps a list with distinct ids distinct. */
  lemma DistinctSnoc(u: seq<SearchResult>, r: SearchResult)
    requires DistinctIds(u) && r.documentId !in IdsOf(u)
    ensures DistinctIds(u + [r])
  {
    forall i | 0 <= i < |u| ensures u[i].documentId != r.documentId {
      assert u[i] in u;
    }
  }

  /** `x` is the first result of `rs` carrying its id. */
  ghost predicate FirstOccurrence(rs: seq<SearchResult>, x: SearchResult) {
    exists i: nat :: FirstOfItsId(rs, i) && rs[i] == x
  }

  /** Each result kept is the first occurrence of its id. */
  lemma {:induction false} UniqueKeepsFirst(rs: seq<SearchResult>)
    ensures forall k :: 0 <= k < |Unique(rs)| ==> FirstOccurrence(rs, Unique(rs)[k])
    decreases |rs|
  {
    if |rs| > 0 {
      var n := |rs| - 1;
      var pre := rs[..n];
      var u := Unique(rs);
      UniqueKeepsFirst(pre);
      forall k | 0 <= k < |u| ensures FirstOccurrence(rs, u[k]) {
        if k < |Unique(pre)| {
          KeptEarlier(rs, k);
        } else {
          KeptLast(rs, k);
        }
      }
    }
  }

  /** A result kept from the prefix is still the first occurrence of its id once a result is appended. */
  lemma KeptEarlier(rs: seq<SearchResult>, k: nat)
    requires |rs| > 0 && k < |Unique(rs[..|rs| - 1])|
    requires FirstOccurrence(rs[..|rs| - 1], Unique(rs[..|rs| - 1])[k])
    ensures k < |Unique(rs)| && FirstOccurrence(rs, Unique(rs)[k])
  {
    var pre := rs[..|rs| - 1];
    var up, tail := Unique(pre), KeepIfNew(rs[|rs| - 1], pre);
    assert Unique(rs) == up + tail;
    assert (up + tail)[k] == up[k];
    var i: nat :| FirstOfItsId(pre, i) && pre[i] == up[k];
    FirstInPrefix(rs, i);
  }

  /** The first occurrence of an id in a prefix is its first occurrence in the whole list. */
  lemma FirstInPrefix(rs: seq<SearchResult>, i: nat)
    requires |rs| > 0 && FirstOfItsId(rs[..|rs| - 1], i)
    ensures FirstOfItsId(rs, i) && rs[i] == rs[..|rs| - 1][i]
  {
  }

  /** The appended result, when kept, is the first occurrence of its id. */
  lemma KeptLast(rs: seq<SearchResult>, k: nat)
    requires |rs| > 0 && |Unique(rs[..|rs| - 1])| <= k < |Unique(rs)|
    ensures FirstOccurrence(rs, Unique(rs)[k])
  {
    var n := |rs| - 1;
    var pre := rs[..n];
    assert rs[n].documentId !in IdsOf(pre) && Unique(rs)[k] == rs[n];
    forall j | 0 <= j < n ensures rs[j].documentId != rs[n].documentId {
      assert pre[j] in pre;
    }
    assert FirstOfItsId(rs, n);
  }

  /** Results merged later never displace earlier ones: the de-duplicated old results stay in front. */
  lemma {:induction false} UniquePrefix(a: seq<SearchResult>, b: seq<SearchResult>)
    ensures Unique(a) <= Unique(a + b)
    decreases |b|
  {
    if |b| == 0 {
      assert a + b == a;
    } else {
      var n := |b| - 1;
      UniquePrefix(a, b[..n]);
      assert (a + b)[..|a + b| - 1] == a + b[..n];
    }
  }

  /** A list whose ids are already distinct is left as it is. */
  lemma {:induction false} UniqueOfDistinct(rs: seq<SearchResult>)
    requires DistinctIds(rs)
    ensures Unique(rs) == rs
    decreases |rs|
  {
    if |rs| > 0 {
      var n := |rs| - 1;
      DistinctLast(rs);
      UniqueOfDistinct(rs[..n]);
      assert rs == rs[..n] + [rs[n]];
    }
  }

  /** Without its last result a list with distinct ids still has them, and lacks the last one's id. */
  lemma DistinctLast(rs: seq<SearchResult>)
    requires |rs| > 0 && DistinctIds(rs)
    ensures DistinctIds(rs[..|rs| - 1]) && rs[|rs| - 1].documentId !in IdsOf(rs[..|rs| - 1])
  {
    var n := |rs| - 1;
    var pre := rs[..n];
    forall r | r in pre ensures r.documentId != rs[n].documentId {
      var j :| 0 <= j < n && pre[j] == r;
      assert rs[j] == r;
    }
  }

  /** The de-duplicated results and the ids seen, one index further. */
  lemma DedupeStep(all: seq<SearchResult>, i: nat)
    requires i < |all|
    ensures Unique(all[..i + 1]) == Unique(all[..i]) + KeepIfNew(all[i], all[..i])
    ensures IdsOf(all[..i + 1]) == IdsOf(all[..i]) + {all[i].documentId}
  {
    assert all[..i + 1][..i] == all[..i];
    assert all[..i + 1] == all[..i] + [all[i]];
    IdsOfAppend(all[..i], [all[i]]);
    IdsOfOne(all[i]);
  }

  /** The update the tool returns. */
  datatype SearchUpdate =
    | NoPlan(message: string)
    | Searched(rawSearchResults: seq<SearchResult>, searchQueriesExecuted: seq<string>, completedStages: seq<string>)

  function ExecuteMultiSearch(plans: seq<MultiSearchQuery>, executed: seq<string>, raw: seq<SearchResult>,
                              search: string -> SearchResponse): SearchUpdate
  {
    if |plans| == 0 then NoPlan("No search queries planned. Generate strategy first.")
    else Searched(Unique(raw + NewResults(plans, executed, search)),
                  executed + NewlyExecuted(plans, executed, search),
                  ["multi_search_executed"])
  }

  /**
   * Without plans nothing changes. Otherwise the merged results hold one result per
   * id, every old and every new id, the old results first (unchanged when their ids
   * were distinct), and the executed queries only grow.
   */
  lemma SearchedSpec(plans: seq<MultiSearchQuery>, executed: seq<string>, raw: seq<SearchResult>,
                     search: string -> SearchResponse)
    ensures |plans| == 0 <==> ExecuteMultiSearch(plans, executed, raw, search).NoPlan?
    ensures var u := ExecuteMultiSearch(plans, executed, raw, search);
      u.Searched? ==>
        && DistinctIds(u.rawSearchResults)
        && IdsOf(u.rawSearchResults) == IdsOf(raw + NewResults(plans, executed, search))
        && (forall k :: 0 <= k < |u.rawSearchResults| ==>
              FirstOccurrence(raw + NewResults(plans, executed, search), u.rawSearchResults[k]))
        && Unique(raw) <= u.rawSearchResults
        && (DistinctIds(raw) ==> raw <= u.rawSearchResults)
        && executed <= u.searchQueriesExecuted
        && u.completedStages == ["multi_search_executed"]
  {
    var all := raw + NewResults(plans, executed, search);
    UniqueSpec(all);
    UniqueKeepsFirst(all);
    UniquePrefix(raw, NewResults(plans, executed, search));
    if DistinctIds(raw) {
      UniqueOfDistinct(raw);
    }
  }

  /** The loop over the plans. */
  method RunPlans(plans: seq<MultiSearchQuery>, executed: seq<string>, search: string -> SearchResponse)
    returns (newResults: seq<SearchResult>, executedQueries: seq<string>)
    ensures newResults == NewResults(plans, executed, search)
    ensures executedQueries == NewlyExecuted(plans, executed, search)
  {
    newResults := [];
    executedQueries := [];
    var i := 0;
    while i < |plans|
      invariant 0 <= i <= |plans|
      invariant newResults == NewResults(plans[..i], executed, search)
      invariant executedQueries == NewlyExecuted(plans[..i], executed, search)
    {
      assert plans[..i + 1][..i] == plans[..i];
      var p := plans[i];
      if p.query !in executed {
        var response := search(p.query);
        if response.successful && response.documents != [] {
          newResults := newResults + response.documents;
          executedQueries := executedQueries + [p.query];
        }
      }
      i := i + 1;
    }
    assert plans[..i] == plans;
  }

  /** The `seen_ids` loop. */
  method Dedupe(all: seq<SearchResult>) returns (unique: seq<SearchResult>)
    ensures unique == Unique(all)
  {
    unique := [];
    var seen: set<string> := {};
    var i := 0;
    while i < |all|
      invariant 0 <= i <= |all|
      invariant unique == Unique(all[..i])
      invariant seen == IdsOf(all[..i])
    {
      DedupeStep(all, i);
      if all[i].documentId !in seen {
        unique := unique + [all[i]];
      }
      seen := seen + {all[i].documentId};
      i := i + 1;
    }
    assert all[..i] == all;
  }

  method ExecuteSearches(plans: seq<MultiSearchQuery>, executed: seq<string>, raw: seq<SearchResult>,
                         search: string -> SearchResponse) returns (u: SearchUpdate)
    ensures u == ExecuteMultiSearch(plans, executed, raw, search)
  {
    if |plans| == 0 {
      return NoPlan("No search queries planned. Generate strategy first.");
    }
    var newResults, executedQueries := RunPlans(plans, executed, search);
    var unique := Dedupe(raw + newResults);
    u := Searched(unique, executed + executedQueries, ["multi_search_executed"]);
  }

  /* ---------- validate_and_rank_sources ---------- */

  /** The relevance threshold. */
  const Threshold: real := 0.3

  /** The validation of one result under the given score and reasoning text. */
  function Validate(r: SearchResult, score: SearchResult -> real, reason: SearchResult -> string): ValidationResult {
    ValidationResult(r.documentId, r.title, score(r) >= Threshold, score(r), reason(r))
  }

  function Validated(raw: seq<SearchResult>, score: SearchResult -> real, reason: SearchResult -> string): (vs: seq<ValidationResult>)
    ensures |vs| == |raw|
    ensures forall i :: 0 <= i < |raw| ==> vs[i] == Validate(raw[i], score, reason)
  {
    seq(|raw|, i requires 0 <= i < |raw| => Validate(raw[i], score, reason))
  }

  function ScoreOf(v: ValidationResult): real {
    v.relevanceScore
  }

  datatype ValidationUpdate =
    | ValidationReply(message: string)
    | Ranked(validationResults: seq<ValidationResult>, completedStages: seq<string>)

  function ValidateAndRank(raw: seq<SearchResult>, existing: seq<ValidationResult>,
                           score: SearchResult -> real, reason: SearchResult -> string): ValidationUpdate
  {
    if raw == [] then ValidationReply("No search results to validate")
    else if existing != [] then ValidationReply("Sources already validated")
    else Ranked(Ranking.SortDesc(Validated(raw, score, reason), ScoreOf), ["sources_validated"])
  }

  /**
   * A ranking holds one validation per input result, relevant exactly when its
   * score reaches the threshold, ordered by descending score; nothing is ranked
   * when there are no results or they were validated already.
   */
  lemma RankedSpec(raw: seq<SearchResult>, existing: seq<ValidationResult>,
                   score: SearchResult -> real, reason: SearchResult -> string)
    ensures ValidateAndRank(raw, existing, score, reason).Ranked? <==> raw != [] && existing == []
    ensures var u := ValidateAndRank(raw, existing, score, reason);
      u.Ranked? ==>
        && multiset(u.validationResults) == multiset(Validated(raw, score, reason))
        && |u.validationResults| == |raw|
        && Ranking.SortedDesc(u.validationResults, ScoreOf)
        && (forall v :: v in u.validationResults ==> (v.isRelevant <==> v.relevanceScore >= Threshold))
        && (forall v :: v in u.validationResults ==> exists r :: r in raw && v == Validate(r, score, reason))
  {
    var vs := Validated(raw, score, reason);
    Ranking.SortDescSpec(vs, ScoreOf);
    forall v | v in Ranking.SortDesc(vs, ScoreOf) ensures exists r :: r in raw && v == Validate(r, score, reason) {
      assert v in multiset(vs);
      var i :| 0 <= i < |vs| && vs[i] == v;
      assert raw[i] in raw;
    }
  }

  method ValidateAndRankSources(raw: seq<SearchResult>, existing: seq<ValidationResult>,
                                score: SearchResult -> real, reason: SearchResult -> string) returns (u: ValidationUpdate)
    ensures u == ValidateAndRank(raw, existing, score, reason)
  {
    if raw == [] {
      return ValidationReply("No search results to validate");
    }
    if existing != [] {
      return ValidationReply("Sources already validated");
    }
    var validated: seq<ValidationResult> := [];
    var i := 0;
    while i < |raw|
      invariant 0 <= i <= |raw|
      invariant validated == Validated(raw[..i], score, reason)
    {
      var r := raw[i];
      var s := score(r);
      validated := validated + [ValidationResult(r.documentId, r.title, s >= Threshold, s, reason(r))];
      i := i + 1;
    }
    assert raw[..i] == raw;
    var sorted := Ranking.SortByKey(validated, ScoreOf);
    u := Ranked(sorted, ["sources_validated"]);
  }

  /* ---------- request_source_approval ---------- */

  /** The relevant validations, in order. */
  function Relevant(vs: seq<ValidationResult>): (r: seq<ValidationResult>)
    ensures |r| <= |vs|
    decreases |vs|
  {
    if |vs| == 0 then []
    else Relevant(vs[..|vs| - 1]) + (if vs[|vs| - 1].isRelevant then [vs[|vs| - 1]] else [])
  }

  lemma {:induction false} RelevantSpec(vs: seq<ValidationResult>)
    ensures forall v :: v in Relevant(vs) <==> v in vs && v.isRelevant
    decreases |vs|
  {
    if |vs| > 0 {
      var n := |vs| - 1;
      RelevantSpec(vs[..n]);
      assert vs == vs[..n] + [vs[n]];
    }
  }

  /** The lines of the approval request for the source numbered `i`; `fmt` is the `:.2f` formatting. */
  function SourceLines(i: nat, v: ValidationResult, fmt: real -> string): string {
    NatText(i) + ". **" + v.title + "** (Score: " + fmt(v.relevanceScore) + ")\n"
    + "   Reasoning: " + v.reasoning + "\n"
    + "   Document ID: " + v.documentId + "\n\n"
  }

  /** The numbered listing of `vs`, from 1. */
  function Listing(vs: seq<ValidationResult>, fmt: real -> string): string
    decreases |vs|
  {
    if |vs| == 0 then [] else Listing(vs[..|vs| - 1], fmt) + SourceLines(|vs|, vs[|vs| - 1], fmt)
  }

  /** The marker each listed source carries; the id the user replies with. */
  function IdLine(id: string): string {
    "   Document ID: " + id + "\n\n"
  }

  /** Every listed source's id is shown in the listing. */
  lemma {:induction false} ListingShowsIds(vs: seq<ValidationResult>, fmt: real -> string)
    ensures forall v :: v in vs ==> Contains(Listing(vs, fmt), IdLine(v.documentId))
    decreases |vs|
  {
    if |vs| > 0 {
      var n := |vs| - 1;
      var last := vs[n];
      ListingShowsIds(vs[..n], fmt);
      var head := NatText(|vs|) + ". **" + last.title + "** (Score: " + fmt(last.relevanceScore) + ")\n"
        + "   Reasoning: " + last.reasoning + "\n";
      assert SourceLines(|vs|, last, fmt) == head + IdLine(last.documentId);
      assert OccursAt(IdLine(last.documentId), IdLine(last.documentId), 0);
      ContainsAt(IdLine(last.documentId), IdLine(last.documentId), 0);
      ContainsPrepend(head, IdLine(last.documentId), IdLine(last.documentId));
      ContainsPrepend(Listing(vs[..n], fmt), SourceLines(|vs|, last, fmt), IdLine(last.documentId));
      forall v | v in vs[..n] ensures Contains(Listing(vs, fmt), IdLine(v.documentId)) {
        ContainsAppend(Listing(vs[..n], fmt), SourceLines(|vs|, last, fmt), IdLine(v.documentId));
      }
      assert vs == vs[..n] + [last];
    }
  }

  /** The `approval_text` listing loop. */
  method BuildListing(vs: seq<ValidationResult>, fmt: real -> string) returns (text: string)
    ensures text == Listing(vs, fmt)
  {
    text := [];
    var i := 0;
    while i < |vs|
      invariant 0 <= i <= |vs|
      invariant text == Listing(vs[..i], fmt)
    {
      assert vs[..i + 1][..i] == vs[..i];
      text := text + SourceLines(i + 1, vs[i], fmt);
      i := i + 1;
    }
    assert vs[..i] == vs;
  }

  function ApprovalText(relevant: seq<ValidationResult>, question: string, fmt: real -> string): string {
    ApprovalHeading(|relevant|, question) + Listing(relevant, fmt) + ApprovalFooter()
  }

  function ApprovalHeading(count: nat, question: string): string {
    "Found " + NatText(count) + " relevant sources for: " + question + "\n\n"
    + "Please review and approve sources:\n"
  }

  function ApprovalFooter(): string {
    "Reply with document IDs to approve (e.g., '123456 789012') or 'all' to approve all relevant sources."
  }

  function NoSourcesText(total: nat, question: string): string {
    "I searched for sources related to: " + question + "\n\n"
    + "Unfortunately, I found " + NatText(total) + " sources but none were sufficiently relevant to your question.\n\n"
    + "Would you like me to:\n"
    + "1. Try a different search approach\n"
    + "2. Broaden the search criteria\n"
    + "3. Proceed with the best available sources anyway\n\n"
    + "Please let me know how you'd like to proceed."
  }

  /**
   * A message of the tool, kept in structured form: the two long texts are
   * produced from it by `Render`.
   */
  datatype Reply =
    | Said(text: string)
    | NoSources(total: nat, question: string)
    | ApprovalRequest(relevant: seq<ValidationResult>, question: string)

  /** The text of a message; `fmt` is the `:.2f` formatting of a score. */
  function Render(r: Reply, fmt: real -> string): string {
    match r
    case Said(text) => text
    case NoSources(total, question) => NoSourcesText(total, question)
    case ApprovalRequest(relevant, question) => ApprovalText(relevant, question, fmt)
  }

  /** The completed stages this tool records. */
  const RequestedStage := "source_approval_requested"
  const NoRelevantStage := "no_relevant_sources_found"

  /** The fields the tool may write (None: left as it is), its message and the value it interrupts with. */
  datatype ApprovalUpdate = ApprovalUpdate(
    pendingApproval: Option<bool>,
    approvalRequiredFor: Option<string>,
    workflowStage: Option<string>,
    completedStages: Option<seq<string>>,
    lastApprovalRequest: Option<Reply>,
    message: Reply,
    interrupt: Option<Reply>)

  function RequestSourceApproval(vs: seq<ValidationResult>, question: string, completed: seq<string>): ApprovalUpdate {
    if vs == [] then
      ApprovalUpdate(None, None, None, None, None, Said("No validation results available for approval"), None)
    else if RequestedStage in completed then
      ApprovalUpdate(Some(true), None, None, None, None, Said("Source approval already requested, waiting for response"), None)
    else
      var relevant := Relevant(vs);
      if relevant == [] then
        ApprovalUpdate(Some(true), Some("no_sources"), Some("no_relevant_sources"),
                       Some(completed + [NoRelevantStage]), None, NoSources(|vs|, question), None)
      else
        var request := ApprovalRequest(relevant, question);
        ApprovalUpdate(Some(true), Some("sources"), Some("awaiting_approval"),
                       Some(completed + [RequestedStage]), Some(request), request, Some(request))
  }

  /** The approval-related part of the agent state; the last request is kept as the message it renders. */
  datatype ApprovalFields = ApprovalFields(
    pendingApproval: bool,
    approvalRequiredFor: string,
    workflowStage: string,
    completedStages: seq<string>,
    lastApprovalRequest: Reply)

  /** The fields after an update: each written field replaced, the others kept. */
  function Apply(f: ApprovalFields, u: ApprovalUpdate): ApprovalFields {
    ApprovalFields(
      u.pendingApproval.GetOr(f.pendingApproval),
      u.approvalRequiredFor.GetOr(f.approvalRequiredFor),
      u.workflowStage.GetOr(f.workflowStage),
      u.completedStages.GetOr(f.completedStages),
      u.lastApprovalRequest.GetOr(f.lastApprovalRequest))
  }

  /**
   * One execution of the tool. The awaiting branch calls `interrupt` while
   * building its result, before the update exists; with no resume value that
   * call raises with the request, so the execution writes nothing. Every other
   * branch returns its update.
   */
  datatype ToolRun = Returned(update: ApprovalUpdate) | Interrupted(request: Reply)

  function RunRequest(vs: seq<ValidationResult>, question: string, completed: seq<string>): ToolRun {
    var u := RequestSourceApproval(vs, question, completed);
    if u.interrupt.Some? then Interrupted(u.interrupt.value) else Returned(u)
  }

  /** One request made against the current fields: a returned update is applied, a raised interrupt leaves them alone. */
  function Requested(f: ApprovalFields, vs: seq<ValidationResult>, question: string): ApprovalFields {
    var run := RunRequest(vs, question, f.completedStages);
    if run.Returned? then Apply(f, run.update) else f
  }

  /** The approval request lists every relevant source's id. */
  lemma ApprovalTextShowsIds(relevant: seq<ValidationResult>, question: string, fmt: real -> string)
    ensures forall v :: v in relevant ==> Contains(ApprovalText(relevant, question, fmt), IdLine(v.documentId))
  {
    ListedInMiddle(ApprovalHeading(|relevant|, question), relevant, fmt, ApprovalFooter());
  }

  /** Text around the listing hides none of its ids. */
  lemma ListedInMiddle(front: string, relevant: seq<ValidationResult>, fmt: real -> string, tail: string)
    ensures forall v :: v in relevant ==> Contains(front + Listing(relevant, fmt) + tail, IdLine(v.documentId))
  {
    ListingShowsIds(relevant, fmt);
    forall v | v in relevant ensures Contains(front + Listing(relevant, fmt) + tail, IdLine(v.documentId)) {
      ContainsPrepend(front, Listing(relevant, fmt), IdLine(v.documentId));
      ContainsAppend(front + Listing(relevant, fmt), tail, IdLine(v.documentId));
    }
  }

  /**
   * With validations, no earlier request and no relevant source: the stage becomes
   * "no_relevant_sources", the answer reports how many sources were examined, no
   * request is recorded and nothing interrupts.
   */
  lemma NoRelevantSpec(vs: seq<ValidationResult>, question: string, completed: seq<string>)
    requires vs != [] && RequestedStage !in completed
    requires forall v :: v in vs ==> !v.isRelevant
    ensures var u := RequestSourceApproval(vs, question, completed);
      && u.pendingApproval == Some(true)
      && u.workflowStage == Some("no_relevant_sources") && u.approvalRequiredFor == Some("no_sources")
      && u.completedStages == Some(completed + [NoRelevantStage])
      && u.message == NoSources(|vs|, question)
      && u.interrupt.None? && u.lastApprovalRequest.None?
  {
    RelevantSpec(vs);
    if Relevant(vs) != [] {
      assert Relevant(vs)[0] in Relevant(vs);
    }
  }

  /**
   * With validations, no earlier request and a relevant source, the command the
   * tool builds sets the stage to "awaiting_approval", records the request for
   * exactly the relevant sources and carries the interrupt with that request.
   * That update takes effect only when `interrupt` returns (a resumed run); a
   * first execution raises instead (`AwaitingInterrupts`).
   */
  lemma AwaitingSpec(vs: seq<ValidationResult>, question: string, completed: seq<string>)
    requires vs != [] && RequestedStage !in completed
    requires exists v :: v in vs && v.isRelevant
    ensures var u := RequestSourceApproval(vs, question, completed);
      && u.pendingApproval == Some(true)
      && u.workflowStage == Some("awaiting_approval") && u.approvalRequiredFor == Some("sources")
      && u.completedStages == Some(completed + [RequestedStage])
      && u.message == ApprovalRequest(Relevant(vs), question)
      && u.interrupt == Some(u.message) && u.lastApprovalRequest == Some(u.message)
  {
    RelevantSpec(vs);
    var v :| v in vs && v.isRelevant;
    assert v in Relevant(vs);
  }

  /**
   * With validations, no earlier request and a relevant source, an execution
   * raises with the request for exactly the relevant sources and records
   * nothing: the fields, the completed stages included, stay as they were.
   * Every other case returns its update.
   */
  lemma AwaitingInterrupts(f: ApprovalFields, vs: seq<ValidationResult>, question: string)
    ensures (vs != [] && RequestedStage !in f.completedStages && exists v :: v in vs && v.isRelevant) ==>
      RunRequest(vs, question, f.completedStages) == Interrupted(ApprovalRequest(Relevant(vs), question))
      && Requested(f, vs, question) == f
    ensures !(vs != [] && RequestedStage !in f.completedStages && exists v :: v in vs && v.isRelevant) ==>
      RunRequest(vs, question, f.completedStages) == Returned(RequestSourceApproval(vs, question, f.completedStages))
      && Requested(f, vs, question) == Apply(f, RequestSourceApproval(vs, question, f.completedStages))
  {
    if vs != [] && RequestedStage !in f.completedStages {
      RelevantSpec(vs);
      if exists v :: v in vs && v.isRelevant {
        AwaitingSpec(vs, question, f.completedStages);
      } else {
        NoRelevantSpec(vs, question, f.completedStages);
      }
    }
  }

  /**
   * Because the raising execution records nothing, the "already requested"
   * guard is never reached from it: asking again raises the same request again.
   */
  lemma AwaitingRepeats(f: ApprovalFields, vs: seq<ValidationResult>, question: string)
    requires vs != [] && RequestedStage !in f.completedStages
    requires exists v :: v in vs && v.isRelevant
    ensures var once := Requested(f, vs, question);
      && once == f && RequestedStage !in once.completedStages
      && RunRequest(vs, question, once.completedStages) == Interrupted(ApprovalRequest(Relevant(vs), question))
  {
    AwaitingInterrupts(f, vs, question);
  }

  /** The text of an approval request for `vs` lists the id of every relevant source of `vs`. */
  lemma RequestShowsIds(vs: seq<ValidationResult>, question: string, fmt: real -> string)
    ensures forall v :: v in vs && v.isRelevant ==>
      Contains(Render(ApprovalRequest(Relevant(vs), question), fmt), IdLine(v.documentId))
  {
    var relevant := Relevant(vs);
    RelevantSpec(vs);
    ApprovalTextShowsIds(relevant, question, fmt);
    RenderApproval(relevant, question, fmt);
  }

  lemma RenderApproval(relevant: seq<ValidationResult>, question: string, fmt: real -> string)
    ensures Render(ApprovalRequest(relevant, question), fmt) == ApprovalText(relevant, question, fmt)
  {
  }

  /** Without validations, or once a request is recorded, the call writes at most the pending flag. */
  lemma RequestGuards(vs: seq<ValidationResult>, question: string, completed: seq<string>)
    ensures vs == [] ==>
      (RequestSourceApproval(vs, question, completed)
         == ApprovalUpdate(None, None, None, None, None, Said("No validation results available for approval"), None))
    ensures vs != [] && RequestedStage in completed ==>
      (RequestSourceApproval(vs, question, completed)
         == ApprovalUpdate(Some(true), None, None, None, None, Said("Source approval already requested, waiting for response"), None))
  {
  }

  /** Once a request is recorded, asking again changes nothing. */
  lemma RequestIdempotent(f: ApprovalFields, vs: seq<ValidationResult>, question: string)
    ensures var once := Requested(f, vs, question);
      RequestedStage in once.completedStages ==> Requested(once, vs, question) == once
  {
    var once := Requested(f, vs, question);
    AwaitingInterrupts(f, vs, question);
    AwaitingInterrupts(once, vs, question);
  }

  /** Without an earlier request, repeated calls that find no relevant source keep appending the stage. */
  lemma NoRelevantRepeats(f: ApprovalFields, vs: seq<ValidationResult>, question: string)
    requires vs != [] && RequestedStage !in f.completedStages
    requires forall v :: v in vs ==> !v.isRelevant
    ensures var twice := Requested(Requested(f, vs, question), vs, question);
      twice.completedStages == f.completedStages + [NoRelevantStage, NoRelevantStage]
  {
    NoRelevantSpec(vs, question, f.completedStages);
    var once := Requested(f, vs, question);
    assert RequestedStage !in once.completedStages;
    NoRelevantSpec(vs, question, once.completedStages);
  }
}
