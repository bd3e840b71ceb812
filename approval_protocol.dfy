/**
 * The approval protocol across the two halves: the answer the research screen
 * sends for a source-approval interrupt, and what the research agent's
 * classifier and parser make of it when it arrives as the latest message of a turn.
 * The HTTP layer in between passes the fields through by name.
 */
module ApprovalProtocol {
  import opened Wrappers
  import opened Text
  import opened Messages
  import opened ResearchState
  import opened ResearchAgent
  import SourceApproval
  import ResearchInterface

  // ---------------------------------------------------------------- the response on the wire

  /** The response body as the screen receives it: an interrupt travels as its type, data and id. */
  function ToWire(r: Response): (w: ResearchInterface.Reply)
    ensures w.Replied? && w.messages == Some(r.messages)
    ensures w.interruptType.Some? <==> r.interrupt.Some?
  {
    if r.interrupt.None? then ResearchInterface.Replied(Some(r.messages), None, None, None)
    else
      var p := r.interrupt.value;
      ResearchInterface.Replied(
        Some(r.messages), Some(ResearchInterface.SourceApprovalKind),
        Some(ResearchInterface.InterruptData(
          Some(p.data.sources), Some(p.data.totalSources), Some(p.data.question),
          p.data.noRelevantSources, p.data.totalFound)),
        Some(p.interruptId))
  }

  /** The screen raises an interrupt exactly when the response carries one, with its id and its total. */
  lemma WireInterrupt(r: Response)
    ensures ResearchInterface.RaisedBy(ToWire(r)).Some? <==> r.interrupt.Some?
    ensures r.interrupt.Some? ==>
      ResearchInterface.RaisedBy(ToWire(r)).value.id == r.interrupt.value.interruptId
      && ResearchInterface.TotalSources(ResearchInterface.RaisedBy(ToWire(r))) == Some(r.interrupt.value.data.totalSources)
  {
  }

  // ---------------------------------------------------------------- scanning the encoded answer

  /** Lowering leaves a string alone when it leaves each of its characters alone. */
  lemma LowerFixed(s: string)
    requires forall i :: 0 <= i < |s| ==> LowerChar(s[i]) == s[i]
    ensures Lower(s) == s
  {
  }

  /** A document id the backend can read back out of an answer: six or more digits. */
  predicate NumericId(id: string) {
    |id| >= 6 && AllDigits(id)
  }

  /** Ids joined with ", " consist of digits, commas and spaces. */
  lemma {:induction false} JoinedChars(ids: seq<string>)
    requires forall k :: 0 <= k < |ids| ==> NumericId(ids[k])
    ensures forall i :: 0 <= i < |Join(ids, ", ")| ==>
      IsDigit(Join(ids, ", ")[i]) || Join(ids, ", ")[i] == ',' || Join(ids, ", ")[i] == ' '
    decreases |ids|
  {
    if |ids| > 1 {
      JoinedChars(ids[1..]);
      var a := ids[0];
      var r := Join(ids[1..], ", ");
      assert Join(ids, ", ") == a + ", " + r;
      forall i | 0 <= i < |a + ", " + r|
        ensures IsDigit((a + ", " + r)[i]) || (a + ", " + r)[i] == ',' || (a + ", " + r)[i] == ' '
      {
        if i >= |a| + 2 {
          assert (a + ", " + r)[i] == r[i - |a| - 2];
        }
      }
    }
  }

  lemma SlicesShift(p: string, t: string, spans: seq<(nat, nat)>)
    requires InBounds(t, spans)
    ensures InBounds(p + t, Shift(spans, |p|))
    ensures Slices(p + t, Shift(spans, |p|)) == Slices(t, spans)
  {
    forall k | 0 <= k < |spans|
      ensures (p + t)[spans[k].0 + |p|..spans[k].1 + |p|] == t[spans[k].0..spans[k].1]
    {
      assert forall m :: spans[k].0 <= m < spans[k].1 ==> (p + t)[m + |p|] == t[m];
    }
  }

  lemma SlicesAppend(s: string, a: seq<(nat, nat)>, b: seq<(nat, nat)>)
    requires InBounds(s, a) && InBounds(s, b)
    ensures InBounds(s, a + b)
    ensures Slices(s, a + b) == Slices(s, a) + Slices(s, b)
  {
  }

  /** A reported span's bounds lie within the scanned text. */
  lemma SpansInBounds(s: string)
    ensures InBounds(s, Spans(s, 0))
  {
  }

  /** A run of digits followed by a non-word character is one match at the front. */
  lemma LeadingNumber(a: string, t: string)
    requires NumericId(a) && |t| > 0 && !PyWordChar(t[0])
    ensures Spans(a + t, 0) == [(0, |a|)] + Spans(a + t, |a|)
  {
    var s := a + t;
    assert forall k :: 0 <= k < |a| ==> s[k] == a[k];
    RunEndIs(s, 0, |a|);
    assert s[0..|a|] == a;
  }

  /** A leading number and its separator contribute that number, and then the rest is scanned as if alone. */
  lemma LeadingNumberThenRest(a: string, r: string)
    requires NumericId(a)
    ensures LongNumbers(a + ", " + r) == [a] + LongNumbers(r)
  {
    var s := a + ", " + r;
    var rest := Shift(Spans(r, 0), |a| + 2);
    LeadingSpans(a, r);
    SpansInBounds(r);
    SlicesShift(a + ", ", r, Spans(r, 0));
    SlicesAppend(s, [(0, |a|)], rest);
    assert s[0..|a|] == a;
  }

  /** The spans of a leading number, its separator and a rest: the number's, then the rest's shifted past the separator. */
  lemma LeadingSpans(a: string, r: string)
    requires NumericId(a)
    ensures Spans(a + ", " + r, 0) == [(0, |a|)] + Shift(Spans(r, 0), |a| + 2)
  {
    var p, t := a + ", ", ", " + r;
    assert a + t == p + r;
    LeadingNumber(a, t);
    SeparatorSkipped(a + t, |a|);
    SpansShift(p, r, 0);
  }

  /** The scan passes over a comma and a space. */
  lemma SeparatorSkipped(s: string, i: nat)
    requires i + 2 <= |s| && s[i] == ',' && s[i + 1] == ' '
    ensures Spans(s, i) == Spans(s, i + 2)
  {
  }

  /** The numbers listed in an answer are found again, in order. */
  lemma {:induction false} JoinedNumbers(ids: seq<string>)
    requires forall k :: 0 <= k < |ids| ==> NumericId(ids[k])
    ensures LongNumbers(Join(ids, ", ")) == ids
    decreases |ids|
  {
    if |ids| == 1 {
      var a := ids[0];
      RunEndIs(a, 0, |a|);
      assert a[0..|a|] == a;
      assert Spans(a, 0) == [(0, |a|)];
    } else if |ids| > 1 {
      LeadingNumberThenRest(ids[0], Join(ids[1..], ", "));
      JoinedNumbers(ids[1..]);
    }
  }

  /** The prefix of an "approved: " answer holds no number and hides none. */
  lemma ApprovedPrefixNumbers(t: string)
    ensures LongNumbers("approved: " + t) == LongNumbers(t)
  {
    var p := "approved: ";
    var s := p + t;
    assert forall k :: 0 <= k < |p| ==> s[k] == p[k];
    RunEndIs(s, 0, 8);
    assert !IsDigit(s[0..8][0]);
    assert Spans(s, 0) == Spans(s, 8);
    assert !PyWordChar(s[8]) && !PyWordChar(s[9]);
    assert Spans(s, 8) == Spans(s, 10);
    SpansShift(p, t, 0);
    SpansInBounds(t);
    SlicesShift(p, t, Spans(t, 0));
  }

  // ---------------------------------------------------------------- the round trips

  /** The characters an answer listing numeric ids is made of. */
  predicate ListingChar(c: char) {
    c == 'a' || c == 'p' || c == 'r' || c == 'o' || c == 'v' || c == 'e' || c == 'd'
    || c == ':' || c == ' ' || c == ',' || IsDigit(c)
  }

  predicate ListingChars(m: string) {
    forall i :: 0 <= i < |m| ==> ListingChar(m[i])
  }

  /** The characters of an answer that lists ids. */
  lemma ListingShape(ids: seq<string>)
    requires forall k :: 0 <= k < |ids| ==> NumericId(ids[k])
    ensures ListingChars("approved: " + Join(ids, ", "))
  {
    JoinedChars(ids);
    ApprovedChars();
    ListingAppend("approved: ", Join(ids, ", "));
  }

  lemma ApprovedChars()
    ensures ListingChars("approved: ")
  {
    var p := "approved: ";
    assert p[0] == 'a' && p[1] == 'p' && p[2] == 'p' && p[3] == 'r' && p[4] == 'o';
    assert p[5] == 'v' && p[6] == 'e' && p[7] == 'd' && p[8] == ':' && p[9] == ' ';
  }

  lemma ListingAppend(a: string, b: string)
    requires ListingChars(a) && ListingChars(b)
    ensures ListingChars(a + b)
  {
    forall i | 0 <= i < |a + b| ensures ListingChar((a + b)[i]) {
      if i < |a| {
        assert (a + b)[i] == a[i];
      } else {
        assert (a + b)[i] == b[i - |a|];
      }
    }
  }

  /** A word with a letter no listing has does not occur in the stripped listing. */
  lemma MissingLetter(m: string, word: string, at: nat)
    requires ListingChars(m) && at < |word| && !ListingChar(word[at])
    ensures !Contains(Trim(Py, m), word)
  {
    TrimChars(Py, m);
    AbsentChar(Trim(Py, m), word, word[at]);
  }

  /** No command word can occur in an answer that lists ids: each lacks one of its letters. */
  lemma ListingHasNoCommand(m: string)
    requires ListingChars(m)
    ensures NoCommandWord(Trim(Py, m))
  {
    MissingLetter(m, "all", 1);
    MissingLetter(m, AllRu, 0);
    MissingLetter(m, "retry", 2);
    MissingLetter(m, "broaden", 0);
    MissingLetter(m, "proceed", 3);
    MissingLetter(m, "none", 0);
    MissingLetter(m, "skip", 0);
  }

  /** A text that starts with "approved" and is its own lowering is an approval. */
  lemma ApprovedIsApproval(m: string)
    requires OccursAt(m, "approved", 0) && Lower(m) == m
    ensures IsApproval(m)
  {
    ContainsAt(m, "approved", 0);
  }

  /** Lowering leaves an answer that lists ids alone. */
  lemma ListingLower(m: string)
    requires ListingChars(m)
    ensures Lower(m) == m
  {
    forall i | 0 <= i < |m| ensures LowerChar(m[i]) == m[i] {
      assert ListingChar(m[i]);
    }
    LowerFixed(m);
  }

  /** Lowering leaves lowercase ASCII letters, colons and spaces alone. */
  lemma LowercaseLower(m: string)
    requires forall i :: 0 <= i < |m| ==> 'a' <= m[i] <= 'z' || m[i] == ':' || m[i] == ' '
    ensures Lower(m) == m
  {
    forall i | 0 <= i < |m| ensures LowerChar(m[i]) == m[i] {
    }
    LowerFixed(m);
  }

  /** Every "approved: " answer starts with the keyword "approved". */
  lemma ApprovedPrefix(t: string)
    ensures OccursAt("approved: " + t, "approved", 0)
  {
    assert ("approved: " + t)[0..8] == "approved";
  }

  /** An answer naming ids is classified as an approval. */
  lemma ListedIdsApproval(ids: seq<string>)
    requires forall k :: 0 <= k < |ids| ==> NumericId(ids[k])
    ensures IsApproval(Lower("approved: " + Join(ids, ", ")))
  {
    var m := "approved: " + Join(ids, ", ");
    ListingShape(ids);
    ListingLower(m);
    ApprovedPrefix(Join(ids, ", "));
    ApprovedIsApproval(m);
  }

  /** An answer naming ids parses back to exactly those ids, in order. */
  lemma ListedIdsParsed(ids: seq<string>)
    requires forall k :: 0 <= k < |ids| ==> NumericId(ids[k])
    ensures ParseApproval(Lower("approved: " + Join(ids, ", "))) == ids
  {
    var m := "approved: " + Join(ids, ", ");
    ListingShape(ids);
    ListingLower(m);
    ListingHasNoCommand(m);
    ParseApprovalNumbers(m);
    ApprovedPrefixNumbers(Join(ids, ", "));
    JoinedNumbers(ids);
  }

  /**
   * The screen's answer for a selection of ids, fewer than the offered total, all of
   * them numeric: the agent reads it as an approval of exactly that selection.
   */
  lemma SelectionRoundTrip(ids: seq<string>, current: Option<ResearchInterface.Interrupt>)
    requires |ids| > 0 && ResearchInterface.TotalSources(current) != Some(|ids|)
    requires forall k :: 0 <= k < |ids| ==> NumericId(ids[k])
    ensures IsApproval(Lower(ResearchInterface.ApprovalMessage(ids, current)))
    ensures ParseApproval(Lower(ResearchInterface.ApprovalMessage(ids, current))) == ids
  {
    ListedIdsApproval(ids);
    ListedIdsParsed(ids);
  }

  /** The state of the next turn records such a selection and leaves the approval stage. */
  lemma SelectionRecorded(ids: seq<string>, current: Option<ResearchInterface.Interrupt>,
                          state: LegalResearchState, converted: seq<GraphMessage>)
    requires |ids| > 0 && ResearchInterface.TotalSources(current) != Some(|ids|)
    requires forall k :: 0 <= k < |ids| ==> NumericId(ids[k])
    ensures var p := Prepared(Some(state), [Message(User, ResearchInterface.ApprovalMessage(ids, current))], converted);
      p.approvedDocumentIds == ids && !p.pendingApproval && p.workflowStage == "sources_approved"
  {
    var incoming := [Message(User, ResearchInterface.ApprovalMessage(ids, current))];
    assert Latest(incoming) == Lower(ResearchInterface.ApprovalMessage(ids, current));
    SelectionRoundTrip(ids, current);
    PreparedApproval(state, incoming, converted);
  }

  /** The "all" and "none" answers reach the agent as plain feedback: the approval fields stay as they were. */
  lemma AllAndNoneNotRecorded(answer: string, state: LegalResearchState, converted: seq<GraphMessage>)
    requires answer == "all" || answer == "none"
    ensures var p := Prepared(Some(state), [Message(User, answer)], converted);
      p.approvedDocumentIds == state.approvedDocumentIds && p.pendingApproval == state.pendingApproval
      && p.workflowStage == state.workflowStage && p.humanFeedback == answer
  {
    var incoming := [Message(User, answer)];
    LowerFixed(answer);
    assert Latest(incoming) == answer;
    if answer == "all" {
      AllNotApproval();
    } else {
      NoneNotApproval();
    }
    PreparedApproval(state, incoming, converted);
    PreparedFeedback(state, incoming, converted);
  }

  /** The stripped lowering of a recovery answer is the answer itself. */
  lemma RecoveryLowered(word: string)
    requires word == "retry" || word == "broaden" || word == "proceed"
    ensures Lower("approved: " + word) == "approved: " + word
    ensures Trim(Py, Lower("approved: " + word)) == "approved: " + word
  {
    LowercaseLower("approved: " + word);
    TrimVisibleEnds(Py, "approved: " + word);
  }

  /** A recovery answer is an approval. */
  lemma RecoveryApproval(word: string)
    requires word == "retry" || word == "broaden" || word == "proceed"
    ensures IsApproval(Lower("approved: " + word))
  {
    RecoveryLowered(word);
    ApprovedPrefix(word);
    ApprovedIsApproval("approved: " + word);
  }

  /** Neither "all" nor "все" occurs in a recovery answer, and the word itself does, after the colon. */
  lemma RecoveryLetters(word: string)
    requires word == "retry" || word == "broaden" || word == "proceed"
    ensures !Contains("approved: " + word, "all") && !Contains("approved: " + word, AllRu)
    ensures OccursAt("approved: " + word, word, 10)
  {
    var m := "approved: " + word;
    RecoveryLacks(word, "all", 'l');
    RecoveryLacks(word, AllRu, AllRu[0]);
    assert m[10..10 + |word|] == word;
  }

  /** A pattern with a letter neither the prefix nor the word has is absent from a recovery answer. */
  lemma RecoveryLacks(word: string, pat: string, c: char)
    requires c in pat && c !in word && c !in "approved: "
    ensures !Contains("approved: " + word, pat)
  {
    AbsentChar("approved: " + word, pat, c);
  }

  /** The answer of the retry button parses to ["retry"]. */
  lemma RetryParsed(word: string)
    requires word == "retry"
    ensures ParseApproval(Lower("approved: " + word)) == [word]
  {
    var m := "approved: " + word;
    RecoveryLowered(word);
    RecoveryLetters(word);
    ContainsAt(m, word, 10);
    ParseApprovalCommands(m);
  }

  /** The answer of the broaden button parses to ["broaden"]. */
  lemma BroadenParsed(word: string)
    requires word == "broaden"
    ensures ParseApproval(Lower("approved: " + word)) == [word]
  {
    var m := "approved: " + word;
    RecoveryLowered(word);
    RecoveryLetters(word);
    RecoveryLacks(word, "retry", 't');
    ContainsAt(m, word, 10);
    ParseApprovalCommands(m);
  }

  /** The answer of the proceed button parses to ["proceed"]. */
  lemma ProceedParsed(word: string)
    requires word == "proceed"
    ensures ParseApproval(Lower("approved: " + word)) == [word]
  {
    var m := "approved: " + word;
    RecoveryLowered(word);
    RecoveryLetters(word);
    RecoveryLacks(word, "retry", 't');
    RecoveryLacks(word, "broaden", 'b');
    ContainsAt(m, word, 10);
    ParseApprovalCommands(m);
  }

  /**
   * A no-relevant-sources interrupt offers zero sources, so each recovery button's
   * answer is sent as "approved: " and the word, which the agent reads back as that word.
   */
  lemma RecoveryRoundTrip(r: Response, result: LegalResearchState, interruptId: string, choice: seq<string>)
    requires r.interrupt == Some(NoSourcesPayload(result, interruptId))
    requires choice == SourceApproval.RetryIds || choice == SourceApproval.BroadenIds || choice == SourceApproval.ProceedIds
    ensures var m := ResearchInterface.ApprovalMessage(choice, ResearchInterface.RaisedBy(ToWire(r)));
      IsApproval(Lower(m)) && ParseApproval(Lower(m)) == choice
  {
    var current := ResearchInterface.RaisedBy(ToWire(r));
    WireInterrupt(r);
    ResearchInterface.RecoveryEncoding(current);
    RecoveryApproval(choice[0]);
    if choice == SourceApproval.RetryIds {
      RetryParsed(choice[0]);
    } else if choice == SourceApproval.BroadenIds {
      BroadenParsed(choice[0]);
    } else {
      ProceedParsed(choice[0]);
    }
  }
}
