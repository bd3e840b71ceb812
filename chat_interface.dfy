/**
 * The consultation chat screen (ChatInterface). `sendMessage` is asynchronous: its
 * part before the `await` is `BeginSend`, its `try`/`catch`/`finally` after the
 * reply is `FinishSend`. The reply of the backend is a parameter.
 */
module ChatInterface {
  import opened Wrappers
  import opened Text
  import opened Messages

  /** `!content.trim()`: the content is empty once white space is trimmed. */
  predicate Blank(content: string) {
    Trim(Js, content) == []
  }

  lemma BlankIsAllSpace(content: string)
    ensures Blank(content) <==> AllSpace(Js, content)
  {
    TrimEmptyIffAllSpace(Js, content);
  }

  /** The fixed message shown when the request fails. */
  const ErrorMessage: Message := Message(Assistant, "Sorry, I encountered an error. Please try again.")

  /** What the awaited request produced: a reply (whose `messages` may be missing) or a thrown error. */
  datatype Reply = Replied(messages: Option<seq<Message>>) | Failed

  /** The messages a completed request adds to the history. */
  function Added(reply: Reply): (r: seq<Message>)
    ensures forall i :: 0 <= i < |r| ==> r[i].role == Assistant
    ensures reply.Failed? ==> r == [ErrorMessage]
    ensures reply.Replied? ==> forall m :: m in r <==> reply.messages.Some? && m in reply.messages.value && m.role == Assistant
  {
    match reply
    case Failed => [ErrorMessage]
    case Replied(None) => []
    case Replied(Some(ms)) => AssistantOnlySpec(ms); AssistantOnly(ms)
  }

  class ChatView {
    var messages: seq<Message>
    var input: string
    /** The `isLoading` state and the `sendingRef` in-flight flag. */
    var isLoading: bool
    var sending: bool

    constructor ()
      ensures messages == [] && input == [] && !isLoading && !sending
    {
      messages := [];
      input := [];
      isLoading := false;
      sending := false;
    }

    /**
     * The guard and the updates before the request: a blank message or one sent while
     * a request is in flight changes nothing and sends nothing; otherwise exactly
     * one user message is appended and the flags are raised.
     */
    method BeginSend(content: string) returns (request: Option<seq<Message>>)
      modifies this
      ensures Blank(content) || old(isLoading) || old(sending) ==>
        request == None && messages == old(messages) && input == old(input)
        && isLoading == old(isLoading) && sending == old(sending)
      ensures !(Blank(content) || old(isLoading) || old(sending)) ==>
        request == Some([Message(User, content)]) && messages == old(messages) + [Message(User, content)]
        && input == [] && isLoading && sending
    {
      if Blank(content) || isLoading || sending {
        request := None;
        return;
      }
      var userMessage := Message(User, content);
      sending := true;
      isLoading := true;
      messages := messages + [userMessage];
      input := [];
      request := Some([userMessage]);
    }

    /** The handling of the reply and the `finally` block: the history only grows, and the flags are lowered. */
    method FinishSend(reply: Reply)
      modifies this
      ensures messages == old(messages) + Added(reply)
      ensures old(messages) <= messages
      ensures !isLoading && !sending && input == old(input)
    {
      match reply {
        case Replied(ms) =>
          if ms.Some? {
            messages := messages + AssistantOnly(ms.value);
          }
        case Failed =>
          messages := messages + [ErrorMessage];
      }
      isLoading := false;
      sending := false;
    }

    /** A whole `sendMessage` when no other send interleaves with it. */
    method SendMessage(content: string, reply: Reply)
      modifies this
      ensures Blank(content) || old(isLoading) || old(sending) ==>
        messages == old(messages) && isLoading == old(isLoading) && sending == old(sending)
      ensures !(Blank(content) || old(isLoading) || old(sending)) ==>
        messages == old(messages) + [Message(User, content)] + Added(reply) && !isLoading && !sending
    {
      var request := BeginSend(content);
      if request.Some? {
        FinishSend(reply);
      }
    }
  }
}
