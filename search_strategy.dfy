/**
 * `generate_multi_search_strategy`: plan three to five search queries, from the
 * broad legal area the question touches to its specific terms. The legal areas
 * come from a fixed keyword table looked up in the lowered question; the key
 * terms are the Cyrillic words of four or more letters that the source's
 * regular expression finds, given here as the input `matches`.
 */
module SearchStrategy {
  import opened Text
  import opened Seqs
  import opened ResearchState

  /** A keyword of the table and the legal concepts it stands for. */
  datatype ConceptEntry = ConceptEntry(keyword: string, concepts: seq<string>)

  /** The keyword table, in its declaration order (a Python dict iterates in insertion order). */
  const ConceptTable: seq<ConceptEntry> := [
    ConceptEntry("трудовой", ["трудовое право", "трудовые отношения", "трудовой договор"]),
    ConceptEntry("пенсия", ["пенсионное обеспечение", "социальные выплаты", "пенсионный фонд"]),
    ConceptEntry("налог", ["налоговое право", "налогообложение", "налоговый кодекс"]),
    ConceptEntry("договор", ["договорное право", "обязательства", "гражданское право"]),
    ConceptEntry("собственность", ["право собственности", "имущественные права", "гражданское право"]),
    ConceptEntry("семья", ["семейное право", "брак", "семейные отношения"]),
    ConceptEntry("наследство", ["наследственное право", "наследование", "завещание"]),
    ConceptEntry("уголовн", ["уголовное право", "уголовная ответственность", "уголовный кодекс"]),
    ConceptEntry("административн", ["административное право", "административная ответственность"]),
    ConceptEntry("земля", ["земельное право", "земельные отношения", "землепользование"]),
    ConceptEntry("предприниматель", ["предпринимательское право", "бизнес", "коммерческое право"])
  ]

  /** The concepts used when no keyword occurs. */
  const GeneralConcepts: seq<string> := ["правовое регулирование", "законодательство", "правовые нормы"]

  /** Every entry has a non-empty keyword (an empty one would occur in every question) and at least two concepts. */
  predicate WellFormedTable(table: seq<ConceptEntry>) {
    forall i :: 0 <= i < |table| ==> table[i].keyword != [] && |table[i].concepts| >= 2
  }

  lemma ConceptTableWellFormed()
    ensures WellFormedTable(ConceptTable)
  {
  }

  /** The concepts one entry contributes to the lowered question. */
  function EntryConcepts(e: ConceptEntry, lowered: string): seq<string> {
    if Contains(lowered, e.keyword) then e.concepts else []
  }

  /** The concepts of every entry whose keyword occurs, in table order. */
  function Matched(table: seq<ConceptEntry>, lowered: string): seq<string>
    decreases |table|
  {
    if |table| == 0 then []
    else Matched(table[..|table| - 1], lowered) + EntryConcepts(table[|table| - 1], lowered)
  }

  /** A concept is matched exactly when it belongs to an entry whose keyword occurs in the question. */
  lemma {:induction false} MatchedSpec(table: seq<ConceptEntry>, lowered: string)
    ensures forall c :: c in Matched(table, lowered) <==>
      exists i :: 0 <= i < |table| && Contains(lowered, table[i].keyword) && c in table[i].concepts
    decreases |table|
  {
    if |table| > 0 {
      var n := |table| - 1;
      MatchedSpec(table[..n], lowered);
      forall c | c in Matched(table, lowered)
        ensures exists i :: 0 <= i < |table| && Contains(lowered, table[i].keyword) && c in table[i].concepts
      {
        if c !in Matched(table[..n], lowered) {
          assert Contains(lowered, table[n].keyword) && c in table[n].concepts;
        } else {
          var i :| 0 <= i < n && Contains(lowered, table[..n][i].keyword) && c in table[..n][i].concepts;
          assert table[i] == table[..n][i];
        }
      }
      forall c | exists i :: 0 <= i < |table| && Contains(lowered, table[i].keyword) && c in table[i].concepts
        ensures c in Matched(table, lowered)
      {
        var i :| 0 <= i < |table| && Contains(lowered, table[i].keyword) && c in table[i].concepts;
        if i < n {
          assert table[..n][i] == table[i];
        }
      }
    }
  }

  /** Under a well-formed table a match contributes at least two concepts. */
  lemma {:induction false} MatchedSize(table: seq<ConceptEntry>, lowered: string)
    requires WellFormedTable(table)
    ensures Matched(table, lowered) == [] || |Matched(table, lowered)| >= 2
    decreases |table|
  {
    if |table| > 0 {
      assert WellFormedTable(table[..|table| - 1]);
      MatchedSize(table[..|table| - 1], lowered);
    }
  }

  /** No keyword occurs: nothing is matched. */
  lemma {:induction false} MatchedNone(table: seq<ConceptEntry>, lowered: string)
    requires forall i :: 0 <= i < |table| ==> !Contains(lowered, table[i].keyword)
    ensures Matched(table, lowered) == []
    decreases |table|
  {
    if |table| > 0 {
      MatchedNone(table[..|table| - 1], lowered);
    }
  }

  /** `identified_concepts`. */
  function Identified(table: seq<ConceptEntry>, lowered: string): seq<string> {
    if Matched(table, lowered) == [] then GeneralConcepts else Matched(table, lowered)
  }

  /** The identified concepts are the matched ones, or the general ones when none matched; there are always at least two. */
  lemma IdentifiedSpec(table: seq<ConceptEntry>, lowered: string)
    requires WellFormedTable(table)
    ensures |Identified(table, lowered)| >= 2
    ensures (forall i :: 0 <= i < |table| ==> !Contains(lowered, table[i].keyword)) ==>
      Identified(table, lowered) == GeneralConcepts
    ensures (exists i :: 0 <= i < |table| && Contains(lowered, table[i].keyword)) ==>
      forall c :: c in Identified(table, lowered) <==>
        exists i :: 0 <= i < |table| && Contains(lowered, table[i].keyword) && c in table[i].concepts
  {
    MatchedSize(table, lowered);
    MatchedSpec(table, lowered);
    if exists i :: 0 <= i < |table| && Contains(lowered, table[i].keyword) {
      var i :| 0 <= i < |table| && Contains(lowered, table[i].keyword);
      assert table[i].concepts[0] in table[i].concepts;
      assert table[i].concepts[0] in Matched(table, lowered);
    } else {
      MatchedNone(table, lowered);
    }
  }

  /** The loop over the table that extends `identified_concepts`. */
  method IdentifyConcepts(table: seq<ConceptEntry>, lowered: string) returns (identified: seq<string>)
    ensures identified == Identified(table, lowered)
  {
    identified := [];
    var i := 0;
    while i < |table|
      invariant 0 <= i <= |table|
      invariant identified == Matched(table[..i], lowered)
    {
      assert table[..i + 1][..i] == table[..i];
      if Contains(lowered, table[i].keyword) {
        identified := identified + table[i].concepts;
      }
      i := i + 1;
    }
    assert table[..i] == table;
    if identified == [] {
      identified := GeneralConcepts;
    }
  }

  /* ---------- the queries ---------- */

  /**
   * The fixed rationale texts of the six kinds of query. They are passed as one
   * record, so that what is proved about the plan holds for any wording.
   */
  datatype Wording = Wording(
    broad: string, medium: string, specific: string, alternative: string, verySpecific: string, fallback: string)

  const Rationales := Wording(
    "Broad search for general legal framework in ",
    "Medium specificity search combining legal area with key terms",
    "Specific search using key terms from user question",
    "Alternative search approach for comprehensive coverage",
    "Very specific search for complex multi-part question",
    "Fallback search using truncated user question")

  function General(identified: seq<string>, w: Wording): (r: seq<MultiSearchQuery>)
    ensures |r| <= 1 && forall q :: q in r ==> q.queryType == "general"
  {
    if identified == [] then []
    else [MultiSearchQuery(identified[0], "general", [identified[0]],
                           w.broad + identified[0])]
  }

  function Medium(identified: seq<string>, keyTerms: seq<string>, w: Wording): (r: seq<MultiSearchQuery>)
    ensures |r| <= 1 && forall q :: q in r ==> q.queryType == "medium"
  {
    if keyTerms == [] || identified == [] then []
    else [MultiSearchQuery(identified[0] + " " + Join(Front(keyTerms, 2), " "), "medium", Front(identified, 2),
                           w.medium)]
  }

  function Specific(keyTerms: seq<string>, w: Wording): (r: seq<MultiSearchQuery>)
    ensures |r| <= 1 && forall q :: q in r ==> q.queryType == "specific"
  {
    if |keyTerms| < 2 then []
    else [MultiSearchQuery(Join(Front(keyTerms, 3), " "), "specific", Front(keyTerms, 3),
                           w.specific)]
  }

  function Alternative(identified: seq<string>, keyTerms: seq<string>, w: Wording): (r: seq<MultiSearchQuery>)
    ensures |r| <= 1 && forall q :: q in r ==> q.queryType == "alternative"
  {
    if |keyTerms| < 4 && |identified| <= 1 then []
    else
      var alt := if |identified| > 1 then Slice(identified, 1, 2) else Slice(keyTerms, 3, 4);
      [MultiSearchQuery(Join(alt, " "), "alternative", alt, w.alternative)]
  }

  function VerySpecific(question: string, keyTerms: seq<string>, w: Wording): (r: seq<MultiSearchQuery>)
    ensures |r| <= 1 && forall q :: q in r ==> q.queryType == "very_specific"
  {
    if WordCount(Lower(question)) <= 8 then []
    else
      var q := if |keyTerms| >= 4 then Join(Front(keyTerms, 4), " ") else Front(question, 50);
      [MultiSearchQuery(q, "very_specific", Front(keyTerms, 4), w.verySpecific)]
  }

  /** `user_question[:30] + "..."` when the question is longer than 30 characters. */
  function Shortened(question: string): string {
    if |question| > 30 then Front(question, 30) + "..." else question
  }

  function Fallback(question: string, planned: seq<MultiSearchQuery>, w: Wording): (r: seq<MultiSearchQuery>)
    ensures |r| <= 1 && forall q :: q in r ==> q.queryType == "fallback"
  {
    if |planned| >= 3 then []
    else [MultiSearchQuery(Shortened(question), "fallback", [], w.fallback)]
  }

  /** `planned_queries`, built in the source's order. */
  function Queries(question: string, identified: seq<string>, keyTerms: seq<string>, w: Wording): seq<MultiSearchQuery> {
    var planned := General(identified, w) + Medium(identified, keyTerms, w) + Specific(keyTerms, w)
      + Alternative(identified, keyTerms, w) + VerySpecific(question, keyTerms, w);
    planned + Fallback(question, planned, w)
  }

  /** Where a query type stands between general and specific. */
  function Rank(queryType: string): int {
    if queryType == "general" then 0
    else if queryType == "medium" then 1
    else if queryType == "specific" then 2
    else if queryType == "alternative" then 3
    else if queryType == "very_specific" then 4
    else if queryType == "fallback" then 5
    else 6
  }

  /** The queries go from general to specific: their types strictly rise in rank, so no type repeats. */
  predicate GeneralToSpecific(qs: seq<MultiSearchQuery>) {
    forall i, j :: 0 <= i < j < |qs| ==> Rank(qs[i].queryType) < Rank(qs[j].queryType)
  }

  lemma PlanOrdered(question: string, identified: seq<string>, keyTerms: seq<string>, w: Wording)
    ensures GeneralToSpecific(Queries(question, identified, keyTerms, w))
  {
    var planned := General(identified, w) + Medium(identified, keyTerms, w) + Specific(keyTerms, w)
      + Alternative(identified, keyTerms, w) + VerySpecific(question, keyTerms, w);
    GroupsOrdered(General(identified, w), Medium(identified, keyTerms, w), Specific(keyTerms, w),
                  Alternative(identified, keyTerms, w), VerySpecific(question, keyTerms, w), Fallback(question, planned, w));
  }

  /** Six groups of at most one query each, of the six types in rank order, concatenate to an ordered plan. */
  lemma GroupsOrdered(g: seq<MultiSearchQuery>, m: seq<MultiSearchQuery>, s: seq<MultiSearchQuery>,
                      a: seq<MultiSearchQuery>, v: seq<MultiSearchQuery>, f: seq<MultiSearchQuery>)
    requires |g| <= 1 && |m| <= 1 && |s| <= 1 && |a| <= 1 && |v| <= 1 && |f| <= 1
    requires forall q :: q in g ==> q.queryType == "general"
    requires forall q :: q in m ==> q.queryType == "medium"
    requires forall q :: q in s ==> q.queryType == "specific"
    requires forall q :: q in a ==> q.queryType == "alternative"
    requires forall q :: q in v ==> q.queryType == "very_specific"
    requires forall q :: q in f ==> q.queryType == "fallback"
    ensures GeneralToSpecific(g + m + s + a + v + f)
  {
    var qs := g + m + s + a + v + f;
    forall i, j | 0 <= i < j < |qs| ensures Rank(qs[i].queryType) < Rank(qs[j].queryType) {
      var gi := Segment(qs, i, g, m, s, a, v, f);
      var gj := Segment(qs, j, g, m, s, a, v, f);
    }
  }

  /** The rank of the query at index `i` of the six concatenated groups is the index of its group. */
  lemma Segment(qs: seq<MultiSearchQuery>, i: nat,
                g: seq<MultiSearchQuery>, m: seq<MultiSearchQuery>, s: seq<MultiSearchQuery>,
                a: seq<MultiSearchQuery>, v: seq<MultiSearchQuery>, f: seq<MultiSearchQuery>) returns (k: int)
    requires qs == g + m + s + a + v + f && i < |qs|
    requires |g| <= 1 && |m| <= 1 && |s| <= 1 && |a| <= 1 && |v| <= 1 && |f| <= 1
    requires forall q :: q in g ==> q.queryType == "general"
    requires forall q :: q in m ==> q.queryType == "medium"
    requires forall q :: q in s ==> q.queryType == "specific"
    requires forall q :: q in a ==> q.queryType == "alternative"
    requires forall q :: q in v ==> q.queryType == "very_specific"
    requires forall q :: q in f ==> q.queryType == "fallback"
    ensures Rank(qs[i].queryType) == k
    ensures k == 0 ==> i < |g|
    ensures k == 1 ==> |g| <= i < |g| + |m|
    ensures k == 2 ==> |g| + |m| <= i < |g| + |m| + |s|
    ensures k == 3 ==> |g| + |m| + |s| <= i < |g| + |m| + |s| + |a|
    ensures k == 4 ==> |g| + |m| + |s| + |a| <= i < |g| + |m| + |s| + |a| + |v|
    ensures k == 5 ==> |g| + |m| + |s| + |a| + |v| <= i
    ensures 0 <= k <= 5
  {
    var b1 := |g|;
    var b2 := b1 + |m|;
    var b3 := b2 + |s|;
    var b4 := b3 + |a|;
    var b5 := b4 + |v|;
    if i < b1 {
      assert qs[i] in g;
      k := 0;
    } else if i < b2 {
      assert qs[i] == m[i - b1] && qs[i] in m;
      k := 1;
    } else if i < b3 {
      assert qs[i] == s[i - b2] && qs[i] in s;
      k := 2;
    } else if i < b4 {
      assert qs[i] == a[i - b3] && qs[i] in a;
      k := 3;
    } else if i < b5 {
      assert qs[i] == v[i - b4] && qs[i] in v;
      k := 4;
    } else {
      assert qs[i] == f[i - b5] && qs[i] in f;
      k := 5;
    }
  }

  /**
   * With at least two identified concepts and at most three key terms (the source
   * keeps the first three matches): three to five queries, the first the general
   * query on the first concept, an alternative query on the second concept, a
   * fallback exactly when there is no key term and the question has at most eight
   * words, and every very specific query is the question's first 50 characters,
   * because the four-key-term branch cannot be reached.
   */
  lemma PlanShape(question: string, identified: seq<string>, keyTerms: seq<string>, w: Wording)
    requires |identified| >= 2 && |keyTerms| <= 3
    ensures var qs := Queries(question, identified, keyTerms, w);
      && 3 <= |qs| <= 5
      && qs[0].queryType == "general" && qs[0].query == identified[0]
      && (exists q :: q in qs && q.queryType == "alternative" && q.query == identified[1])
      && ((exists q :: q in qs && q.queryType == "fallback") <==> keyTerms == [] && WordCount(Lower(question)) <= 8)
      && (forall q :: q in qs && q.queryType == "very_specific" ==> q.query == Front(question, 50))
  {
    PlanSize(question, identified, keyTerms, w);
    PlanAlternative(question, identified, keyTerms, w);
    PlanFallback(question, identified, keyTerms, w);
    PlanVerySpecific(question, identified, keyTerms, w);
  }

  lemma PlanSize(question: string, identified: seq<string>, keyTerms: seq<string>, w: Wording)
    requires |identified| >= 2 && |keyTerms| <= 3
    ensures var qs := Queries(question, identified, keyTerms, w);
      3 <= |qs| <= 5 && qs[0].queryType == "general" && qs[0].query == identified[0]
  {
    var g := General(identified, w);
    var m := Medium(identified, keyTerms, w);
    var sp := Specific(keyTerms, w);
    var a := Alternative(identified, keyTerms, w);
    var v := VerySpecific(question, keyTerms, w);
    var planned := g + m + sp + a + v;
    assert |g| == 1 && |a| == 1;
    assert |planned| == |g| + |m| + |sp| + |a| + |v|;
    assert (planned + Fallback(question, planned, w))[0] == g[0];
  }

  lemma PlanAlternative(question: string, identified: seq<string>, keyTerms: seq<string>, w: Wording)
    requires |identified| >= 2 && |keyTerms| <= 3
    ensures var qs := Queries(question, identified, keyTerms, w);
      exists q :: q in qs && q.queryType == "alternative" && q.query == identified[1]
  {
    var g := General(identified, w);
    var m := Medium(identified, keyTerms, w);
    var sp := Specific(keyTerms, w);
    var a := Alternative(identified, keyTerms, w);
    var v := VerySpecific(question, keyTerms, w);
    var planned := g + m + sp + a + v;
    var qs := planned + Fallback(question, planned, w);
    assert Join([identified[1]], " ") == identified[1];
    assert a[0].queryType == "alternative" && a[0].query == identified[1];
    assert qs[|g| + |m| + |sp|] == a[0];
  }

  lemma PlanFallback(question: string, identified: seq<string>, keyTerms: seq<string>, w: Wording)
    requires |identified| >= 2 && |keyTerms| <= 3
    ensures var qs := Queries(question, identified, keyTerms, w);
      (exists q :: q in qs && q.queryType == "fallback") <==> keyTerms == [] && WordCount(Lower(question)) <= 8
  {
    var g := General(identified, w);
    var m := Medium(identified, keyTerms, w);
    var sp := Specific(keyTerms, w);
    var a := Alternative(identified, keyTerms, w);
    var v := VerySpecific(question, keyTerms, w);
    var planned := g + m + sp + a + v;
    var f := Fallback(question, planned, w);
    var qs := planned + f;
    assert |planned| == |g| + |m| + |sp| + |a| + |v|;
    assert |g| == 1 && |a| == 1;
    assert |m| == (if keyTerms == [] then 0 else 1);
    assert |sp| == (if |keyTerms| >= 2 then 1 else 0);
    assert |v| == (if WordCount(Lower(question)) > 8 then 1 else 0);
    if keyTerms == [] && WordCount(Lower(question)) <= 8 {
      assert qs[|planned|] == f[0];
    } else {
      assert f == [];
      forall q: MultiSearchQuery | q in qs ensures q.queryType != "fallback" {
        InGroups(q, planned, f, g, m, sp, a, v);
      }
    }
  }

  lemma PlanVerySpecific(question: string, identified: seq<string>, keyTerms: seq<string>, w: Wording)
    requires |identified| >= 2 && |keyTerms| <= 3
    ensures var qs := Queries(question, identified, keyTerms, w);
      forall q :: q in qs && q.queryType == "very_specific" ==> q.query == Front(question, 50)
  {
    var g := General(identified, w);
    var m := Medium(identified, keyTerms, w);
    var sp := Specific(keyTerms, w);
    var a := Alternative(identified, keyTerms, w);
    var v := VerySpecific(question, keyTerms, w);
    var planned := g + m + sp + a + v;
    var f := Fallback(question, planned, w);
    var qs := planned + f;
    forall q: MultiSearchQuery | q in qs && q.queryType == "very_specific" ensures q.query == Front(question, 50) {
      InGroups(q, planned, f, g, m, sp, a, v);
    }
  }

  /** A member of the five planned groups and the fallback belongs to one of them. */
  lemma InGroups(q: MultiSearchQuery, planned: seq<MultiSearchQuery>, f: seq<MultiSearchQuery>,
                 g: seq<MultiSearchQuery>, m: seq<MultiSearchQuery>, sp: seq<MultiSearchQuery>,
                 a: seq<MultiSearchQuery>, v: seq<MultiSearchQuery>)
    requires planned == g + m + sp + a + v && q in planned + f
    ensures q in g || q in m || q in sp || q in a || q in v || q in f
  {
  }

  /** Every query of `qs` draws its legal concepts from `identified` and `keyTerms`. */
  predicate DrawsFrom(qs: seq<MultiSearchQuery>, identified: seq<string>, keyTerms: seq<string>) {
    forall q, c :: q in qs && c in q.legalConcepts ==> c in identified || c in keyTerms
  }

  lemma DrawsFromConcat(a: seq<MultiSearchQuery>, b: seq<MultiSearchQuery>, identified: seq<string>, keyTerms: seq<string>)
    requires DrawsFrom(a, identified, keyTerms) && DrawsFrom(b, identified, keyTerms)
    ensures DrawsFrom(a + b, identified, keyTerms)
  {
  }

  /** Every query's legal concepts are among the identified concepts and key terms. */
  lemma ConceptsCovered(question: string, identified: seq<string>, keyTerms: seq<string>, w: Wording)
    ensures DrawsFrom(Queries(question, identified, keyTerms, w), identified, keyTerms)
  {
    var g := General(identified, w);
    var m := Medium(identified, keyTerms, w);
    var sp := Specific(keyTerms, w);
    var a := Alternative(identified, keyTerms, w);
    var v := VerySpecific(question, keyTerms, w);
    var planned := g + m + sp + a + v;
    var f := Fallback(question, planned, w);
    GroupsDraw(question, identified, keyTerms, w);
    DrawsFromConcat(g, m, identified, keyTerms);
    DrawsFromConcat(g + m, sp, identified, keyTerms);
    DrawsFromConcat(g + m + sp, a, identified, keyTerms);
    DrawsFromConcat(g + m + sp + a, v, identified, keyTerms);
    DrawsFromConcat(planned, f, identified, keyTerms);
  }

  /** Each group of queries draws its concepts from the identified concepts and key terms. */
  lemma GroupsDraw(question: string, identified: seq<string>, keyTerms: seq<string>, w: Wording)
    ensures DrawsFrom(General(identified, w), identified, keyTerms)
    ensures DrawsFrom(Medium(identified, keyTerms, w), identified, keyTerms)
    ensures DrawsFrom(Specific(keyTerms, w), identified, keyTerms)
    ensures DrawsFrom(Alternative(identified, keyTerms, w), identified, keyTerms)
    ensures DrawsFrom(VerySpecific(question, keyTerms, w), identified, keyTerms)
    ensures forall planned :: DrawsFrom(Fallback(question, planned, w), identified, keyTerms)
  {
    AlternativeDraws(identified, keyTerms, w);
  }

  lemma AlternativeDraws(identified: seq<string>, keyTerms: seq<string>, w: Wording)
    ensures DrawsFrom(Alternative(identified, keyTerms, w), identified, keyTerms)
  {
    var a := Alternative(identified, keyTerms, w);
    if a != [] {
      forall c | c in a[0].legalConcepts ensures c in identified || c in keyTerms {
        if |identified| > 1 {
          assert c in identified[1..2];
        } else {
          assert c in keyTerms[3..];
        }
      }
    }
  }

  /** How the summary shows one query: `type(query)`. */
  function Label(q: MultiSearchQuery): string {
    q.queryType + "(" + q.query + ")"
  }

  function Labels(qs: seq<MultiSearchQuery>): (r: seq<string>)
    ensures |r| == |qs| && forall i :: 0 <= i < |qs| ==> r[i] == Label(qs[i])
  {
    seq(|qs|, i requires 0 <= i < |qs| => Label(qs[i]))
  }

  /** `strategy_summary`. */
  function Summary(qs: seq<MultiSearchQuery>): string {
    "Generated " + NatText(|qs|) + " search queries: " + Join(Labels(qs), " → ")
  }

  /** The summary names every planned query with its type. */
  lemma SummaryListsQueries(qs: seq<MultiSearchQuery>)
    ensures forall q :: q in qs ==> Contains(Summary(qs), Label(q))
  {
    JoinShowsParts(Labels(qs), " → ");
    forall q | q in qs ensures Contains(Summary(qs), Label(q)) {
      var i :| 0 <= i < |qs| && qs[i] == q;
      assert Labels(qs)[i] == Label(q);
      ContainsPrepend("Generated " + NatText(|qs|) + " search queries: ", Join(Labels(qs), " → "), Label(q));
    }
  }

  /** The update the tool returns. */
  datatype StrategyUpdate =
    | AlreadyPlanned(message: string)
    | Planned(searchQueriesPlanned: seq<MultiSearchQuery>, legalConceptsIdentified: set<string>,
              searchStrategyRationale: string, completedStages: seq<string>)

  function GenerateStrategy(question: string, matches: seq<string>, planned: seq<MultiSearchQuery>): StrategyUpdate {
    if planned != [] then AlreadyPlanned("Search strategy already planned")
    else
      var identified := Identified(ConceptTable, Lower(question));
      var keyTerms := Front(matches, 3);
      var qs := Queries(question, identified, keyTerms, Rationales);
      Planned(qs, (set c | c in identified + keyTerms), Summary(qs), ["strategy_generated"])
  }

  /**
   * A strategy already planned is left alone. Otherwise three to five queries from
   * general to specific, the first the general one, each drawing its concepts from
   * those recorded, which are exactly the identified concepts and the first three
   * key terms.
   */
  lemma StrategySpec(question: string, matches: seq<string>, planned: seq<MultiSearchQuery>)
    ensures GenerateStrategy(question, matches, planned).AlreadyPlanned? <==> planned != []
    ensures var u := GenerateStrategy(question, matches, planned);
      u.Planned? ==>
        && 3 <= |u.searchQueriesPlanned| <= 5
        && u.searchQueriesPlanned[0].queryType == "general"
        && GeneralToSpecific(u.searchQueriesPlanned)
        && (forall c :: c in u.legalConceptsIdentified <==>
              c in Identified(ConceptTable, Lower(question)) || c in Front(matches, 3))
        && (forall q, c :: q in u.searchQueriesPlanned && c in q.legalConcepts ==> c in u.legalConceptsIdentified)
        && u.completedStages == ["strategy_generated"]
  {
    if planned == [] {
      var identified := Identified(ConceptTable, Lower(question));
      var keyTerms := Front(matches, 3);
      ConceptTableWellFormed();
      IdentifiedSpec(ConceptTable, Lower(question));
      PlanShape(question, identified, keyTerms, Rationales);
      PlanOrdered(question, identified, keyTerms, Rationales);
      ConceptsCovered(question, identified, keyTerms, Rationales);
    }
  }

  method GenerateMultiSearchStrategy(question: string, matches: seq<string>, planned: seq<MultiSearchQuery>)
    returns (u: StrategyUpdate)
    ensures u == GenerateStrategy(question, matches, planned)
  {
    if planned != [] {
      return AlreadyPlanned("Search strategy already planned");
    }
    var lowered := Lower(question);
    var identified := IdentifyConcepts(ConceptTable, lowered);
    var keyTerms := Front(matches, 3);
    var qs := Queries(question, identified, keyTerms, Rationales);
    u := Planned(qs, (set c | c in identified + keyTerms), Summary(qs), ["strategy_generated"]);
  }
}
