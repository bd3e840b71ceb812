/** The chat message exchanged between the UI and the backend (`Message` in both halves). */
module Messages {

  /** `"user" | "assistant"` in the UI; the backend schema also admits `"system"`. */
  datatype Role = User | Assistant | System

  /** Equality is field-wise, as for the backend's pydantic model and the UI's plain objects. */
  datatype Message = Message(role: Role, content: string)

  /** The assistant-role messages of `ms`, in order (`messages.filter(m => m.role === "assistant")`). */
  function AssistantOnly(ms: seq<Message>): (r: seq<Message>)
    ensures |r| <= |ms|
    decreases |ms|
  {
    if |ms| == 0 then [] else Kept(ms[0]) + AssistantOnly(ms[1..])
  }

  /** The message itself when it is the assistant's, otherwise nothing. */
  function Kept(m: Message): seq<Message> {
    if m.role == Assistant then [m] else []
  }

  /** The filter keeps exactly the assistant messages. */
  lemma {:induction false} AssistantOnlySpec(ms: seq<Message>)
    ensures forall i :: 0 <= i < |AssistantOnly(ms)| ==> AssistantOnly(ms)[i].role == Assistant
    ensures forall m :: m in AssistantOnly(ms) <==> m in ms && m.role == Assistant
    decreases |ms|
  {
    if |ms| > 0 {
      AssistantOnlySpec(ms[1..]);
      assert AssistantOnly(ms) == Kept(ms[0]) + AssistantOnly(ms[1..]);
      forall m ensures m in AssistantOnly(ms) <==> m in ms && m.role == Assistant {
        assert m in ms <==> m == ms[0] || m in ms[1..];
      }
    }
  }

  /** Filtering keeps the relative order: it distributes over concatenation. */
  lemma {:induction false} AssistantOnlyAppend(a: seq<Message>, b: seq<Message>)
    ensures AssistantOnly(a + b) == AssistantOnly(a) + AssistantOnly(b)
    decreases |a|
  {
    if |a| == 0 {
      assert a + b == b;
    } else {
      assert (a + b)[1..] == a[1..] + b;
      AssistantOnlyAppend(a[1..], b);
      var k, r, t := Kept(a[0]), AssistantOnly(a[1..]), AssistantOnly(b);
      assert AssistantOnly(a + b) == k + (r + t);
      assert k + (r + t) == (k + r) + t;
    }
  }

  /** The backend schema's length bounds on `content` (`min_length=1, max_length=15000`). */
  const MaxContentLength: nat := 15000

  predicate Admissible(content: string) {
    1 <= |content| <= MaxContentLength
  }

  /** The agent framework's message classes, by their `type` tag. */
  datatype GraphKind = HumanKind | AiKind | ToolKind | SystemKind

  /** A message as the agent graph holds it. */
  datatype GraphMessage = GraphMessage(kind: GraphKind, content: string)

  /** A user message becomes a human message, an assistant message an ai message; a system message has no counterpart. */
  function ToGraphOne(m: Message): seq<GraphMessage> {
    match m.role
    case User => [GraphMessage(HumanKind, m.content)]
    case Assistant => [GraphMessage(AiKind, m.content)]
    case System => []
  }

  /** The whole history in the graph's format, in order. */
  function ToGraph(history: seq<Message>): (r: seq<GraphMessage>)
    ensures |r| <= |history|
    ensures forall i :: 0 <= i < |r| ==> r[i].kind == HumanKind || r[i].kind == AiKind
    decreases |history|
  {
    if |history| == 0 then []
    else ToGraph(history[..|history| - 1]) + ToGraphOne(history[|history| - 1])
  }

  /** Without system messages the conversion is one to one and keeps every content and speaker. */
  lemma {:induction false} ToGraphFaithful(history: seq<Message>)
    requires forall i :: 0 <= i < |history| ==> history[i].role != System
    ensures |ToGraph(history)| == |history|
    ensures forall i :: 0 <= i < |history| ==>
      ToGraph(history)[i].content == history[i].content
      && (ToGraph(history)[i].kind == HumanKind <==> history[i].role == User)
    decreases |history|
  {
    if |history| > 0 {
      var n := |history| - 1;
      ToGraphFaithful(history[..n]);
      assert forall i :: 0 <= i < n ==> history[..n][i] == history[i];
    }
  }

  /** The conversion distributes over concatenation, so it keeps the order of the history. */
  lemma {:induction false} ToGraphAppend(a: seq<Message>, b: seq<Message>)
    ensures ToGraph(a + b) == ToGraph(a) + ToGraph(b)
    decreases |b|
  {
    if |b| == 0 {
      assert a + b == a;
    } else {
      var n := |b| - 1;
      var front, last := b[..n], b[n];
      assert b == front + [last];
      assert a + b == (a + front) + [last];
      ToGraphSnoc(a + front, last);
      ToGraphSnoc(front, last);
      ToGraphAppend(a, front);
      Associative(ToGraph(a), ToGraph(front), ToGraphOne(last));
    }
  }

  lemma Associative(x: seq<GraphMessage>, y: seq<GraphMessage>, z: seq<GraphMessage>)
    ensures (x + y) + z == x + (y + z)
  {
  }

  /** One more message converts on its own. */
  lemma ToGraphSnoc(h: seq<Message>, m: Message)
    ensures ToGraph(h + [m]) == ToGraph(h) + ToGraphOne(m)
  {
    assert (h + [m])[..|h|] == h;
  }

  /** The user and assistant messages of a history, in order. */
  function Spoken(history: seq<Message>): (r: seq<Message>)
    ensures |r| <= |history|
    ensures forall i :: 0 <= i < |r| ==> r[i].role != System
    decreases |history|
  {
    if |history| == 0 then []
    else Spoken(history[..|history| - 1]) + (if history[|history| - 1].role == System then [] else [history[|history| - 1]])
  }

  /** The spoken messages are exactly the non-system messages of the history. */
  lemma {:induction false} SpokenSpec(history: seq<Message>)
    ensures forall m :: m in Spoken(history) <==> m in history && m.role != System
    decreases |history|
  {
    if |history| > 0 {
      var n := |history| - 1;
      SpokenSpec(history[..n]);
      assert history == history[..n] + [history[n]];
    }
  }

  /** System messages contribute nothing to the conversion. */
  lemma {:induction false} ToGraphOfSpoken(history: seq<Message>)
    ensures ToGraph(history) == ToGraph(Spoken(history))
    decreases |history|
  {
    if |history| > 0 {
      var n := |history| - 1;
      var last := history[n];
      ToGraphOfSpoken(history[..n]);
      assert history == history[..n] + [last];
      ToGraphSnoc(history[..n], last);
      if last.role == System {
        assert Spoken(history) == Spoken(history[..n]);
      } else {
        assert Spoken(history) == Spoken(history[..n]) + [last];
        ToGraphSnoc(Spoken(history[..n]), last);
      }
    }
  }

  /**
   * For any history, the conversion is the one-to-one conversion of its user
   * and assistant messages: system messages are skipped and the rest keep
   * their order, contents and speakers.
   */
  lemma ToGraphKeepsSpoken(history: seq<Message>)
    ensures var sp := Spoken(history);
      && |ToGraph(history)| == |sp|
      && forall i :: 0 <= i < |sp| ==>
           ToGraph(history)[i].content == sp[i].content
           && (ToGraph(history)[i].kind == HumanKind <==> sp[i].role == User)
  {
    ToGraphOfSpoken(history);
    ToGraphFaithful(Spoken(history));
  }

  /** The loop that converts the history for the graph. */
  method ConvertHistory(history: seq<Message>) returns (converted: seq<GraphMessage>)
    ensures converted == ToGraph(history)
  {
    converted := [];
    var i := 0;
    while i < |history|
      invariant 0 <= i <= |history|
      invariant converted == ToGraph(history[..i])
    {
      assert history[..i + 1][..i] == history[..i];
      if history[i].role == User {
        converted := converted + [GraphMessage(HumanKind, history[i].content)];
      } else if history[i].role == Assistant {
        converted := converted + [GraphMessage(AiKind, history[i].content)];
      }
      i := i + 1;
    }
    assert history[..i] == history;
  }
}
