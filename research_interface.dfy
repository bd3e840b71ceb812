/**
 * The research screen (ResearchInterface): the chat screen's send cycle plus one
 * optional interrupt (a pending source approval), and the wire encoding of an
 * approval answer. The reply of the backend is a parameter.
 */
module ResearchInterface {
  import opened Wrappers
  import opened Text
  import opened Messages
  import opened SourceApproval
  import ChatInterface

  /** `interrupt_type`: the two literals the response schema admits. */
  datatype InterruptKind = SourceApprovalKind | ArtifactReviewKind

  /** The fields of `interrupt_data` the screen reads; each may be missing. */
  datatype InterruptData = InterruptData(
    sources: Option<seq<Source>>,
    totalSources: Option<int>,
    question: Option<string>,
    noRelevantSources: Option<bool>,
    totalFound: Option<int>)

  /** `currentInterrupt` when set. */
  datatype Interrupt = Interrupt(kind: InterruptKind, data: InterruptData, id: string)

  /** What the awaited request produced. */
  datatype Reply =
    | Replied(messages: Option<seq<Message>>, interruptType: Option<InterruptKind>,
              interruptData: Option<InterruptData>, interruptId: Option<string>)
    | Failed

  /** The interrupt a reply raises: only when it has both a type and data; a missing id becomes "". */
  function RaisedBy(reply: Reply): (r: Option<Interrupt>)
    ensures r.Some? <==> reply.Replied? && reply.interruptType.Some? && reply.interruptData.Some?
    ensures r.Some? ==> r.value.kind == reply.interruptType.value && r.value.data == reply.interruptData.value
    ensures r.Some? && reply.interruptId.None? ==> r.value.id == []
    ensures r.Some? && reply.interruptId.Some? ==> r.value.id == reply.interruptId.value
  {
    match reply
    case Failed => None
    case Replied(_, Some(kind), Some(data), id) => Some(Interrupt(kind, data, id.GetOr([])))
    case Replied(_, _, _, _) => None
  }

  /** The messages a completed request adds to the history. */
  function Added(reply: Reply): (r: seq<Message>)
    ensures forall i :: 0 <= i < |r| ==> r[i].role == Assistant
    ensures reply.Failed? ==> r == [ChatInterface.ErrorMessage]
    ensures reply.Replied? ==> forall m :: m in r <==> reply.messages.Some? && m in reply.messages.value && m.role == Assistant
  {
    match reply
    case Failed => [ChatInterface.ErrorMessage]
    case Replied(None, _, _, _) => []
    case Replied(Some(ms), _, _, _) => AssistantOnlySpec(ms); AssistantOnly(ms)
  }

  /** `currentInterrupt?.data.total_sources`. */
  function TotalSources(current: Option<Interrupt>): Option<int> {
    if current.Some? then current.value.data.totalSources else None
  }

  /** `handleSourceApproval`'s message: "none" for no ids, "all" when as many ids as offered sources, else the ids listed. */
  function ApprovalMessage(approvedIds: seq<string>, current: Option<Interrupt>): (m: string)
    ensures |approvedIds| == 0 ==> m == "none"
    ensures |approvedIds| > 0 && TotalSources(current) == Some(|approvedIds|) ==> m == "all"
    ensures |approvedIds| > 0 && TotalSources(current) != Some(|approvedIds|) ==> m == "approved: " + Join(approvedIds, ", ")
  {
    if |approvedIds| == 0 then "none"
    else if TotalSources(current) == Some(|approvedIds|) then "all"
    else "approved: " + Join(approvedIds, ", ")
  }

  /** The encoded answer is never blank, so only the in-flight guard can drop it. */
  lemma ApprovalNotBlank(approvedIds: seq<string>, current: Option<Interrupt>)
    ensures !ChatInterface.Blank(ApprovalMessage(approvedIds, current))
  {
    var m := ApprovalMessage(approvedIds, current);
    ChatInterface.BlankIsAllSpace(m);
    assert m[0] == 'n' || m[0] == 'a';
    VisibleNotSpace(Js, m[0]);
  }

  /**
   * A recovery choice under a no-relevant-sources interrupt, which offers zero sources,
   * is neither "none" nor "all": the message sent is "approved: " and the choice.
   */
  lemma RecoveryEncoding(current: Option<Interrupt>)
    requires TotalSources(current) == Some(0)
    ensures ApprovalMessage(RetryIds, current) == "approved: retry"
    ensures ApprovalMessage(BroadenIds, current) == "approved: broaden"
    ensures ApprovalMessage(ProceedIds, current) == "approved: proceed"
  {
  }

  class ResearchView {
    var messages: seq<Message>
    var input: string
    var isLoading: bool
    var sending: bool
    var currentInterrupt: Option<Interrupt>

    constructor ()
      ensures messages == [] && input == [] && !isLoading && !sending && currentInterrupt == None
    {
      messages := [];
      input := [];
      isLoading := false;
      sending := false;
      currentInterrupt := None;
    }

    /**
     * The guard and the updates before the request: a blank message or one sent while
     * a request is in flight changes nothing; otherwise one user message is appended,
     * the flags are raised and the current interrupt is cleared.
     */
    method BeginSend(content: string) returns (request: Option<seq<Message>>)
      modifies this
      ensures ChatInterface.Blank(content) || old(isLoading) || old(sending) ==>
        request == None && messages == old(messages) && input == old(input)
        && isLoading == old(isLoading) && sending == old(sending) && currentInterrupt == old(currentInterrupt)
      ensures !(ChatInterface.Blank(content) || old(isLoading) || old(sending)) ==>
        request == Some([Message(User, content)]) && messages == old(messages) + [Message(User, content)]
        && input == [] && isLoading && sending && currentInterrupt == None
    {
      if ChatInterface.Blank(content) || isLoading || sending {
        request := None;
        return;
      }
      var userMessage := Message(User, content);
      sending := true;
      isLoading := true;
      messages := messages + [userMessage];
      input := [];
      currentInterrupt := None;
      request := Some([userMessage]);
    }

    /** The handling of the reply and the `finally` block. */
    method FinishSend(reply: Reply)
      modifies this
      ensures messages == old(messages) + Added(reply)
      ensures old(messages) <= messages
      ensures RaisedBy(reply).Some? ==> currentInterrupt == RaisedBy(reply)
      ensures RaisedBy(reply).None? ==> currentInterrupt == old(currentInterrupt)
      ensures !isLoading && !sending && input == old(input)
    {
      match reply {
        case Replied(ms, kind, data, id) =>
          if ms.Some? {
            messages := messages + AssistantOnly(ms.value);
          }
          if kind.Some? && data.Some? {
            currentInterrupt := Some(Interrupt(kind.value, data.value, id.GetOr([])));
          }
        case Failed =>
          messages := messages + [ChatInterface.ErrorMessage];
      }
      isLoading := false;
      sending := false;
    }

    /** `handleSourceApproval`: encode the answer against the current interrupt and send it. */
    method HandleSourceApproval(approvedIds: seq<string>) returns (request: Option<seq<Message>>)
      modifies this
      ensures old(isLoading) || old(sending) ==> request == None && messages == old(messages)
      ensures !(old(isLoading) || old(sending)) ==>
        request == Some([Message(User, ApprovalMessage(approvedIds, old(currentInterrupt)))])
        && messages == old(messages) + [Message(User, ApprovalMessage(approvedIds, old(currentInterrupt)))]
        && currentInterrupt == None && isLoading && sending
    {
      var approvalMessage := ApprovalMessage(approvedIds, currentInterrupt);
      ApprovalNotBlank(approvedIds, currentInterrupt);
      request := BeginSend(approvalMessage);
    }
  }
}
