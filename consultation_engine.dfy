/**
 * The consultation engine (ConsultationEngine): an in-memory map from session
 * id to history. A turn records the incoming messages, converts the whole history
 * for the agent graph, keeps the usable messages of the graph's result, records
 * them too, and answers with the latest assistant message. The graph run is a
 * parameter: the messages it returned, or None when it raised.
 */
module ConsultationEngine {
  import opened Wrappers
  import opened Text
  import opened Seqs
  import opened Messages

  /** The result's message as an API message: human and ai messages with non-blank content, stripped and within the length bound. */
  function KeptOne(m: GraphMessage): seq<Message> {
    var clean := Trim(Py, m.content);
    if clean == [] || !Admissible(clean) then []
    else if m.kind == HumanKind then [Message(User, clean)]
    else if m.kind == AiKind then [Message(Assistant, clean)]
    else []
  }

  /** `all_messages`: the kept messages of the result, in order. */
  function Kept(ms: seq<GraphMessage>): (r: seq<Message>)
    ensures |r| <= |ms|
    decreases |ms|
  {
    if |ms| == 0 then [] else Kept(ms[..|ms| - 1]) + KeptOne(ms[|ms| - 1])
  }

  /**
   * A message is kept exactly when some human or ai message of the result has
   * non-blank content that, stripped, is that message's admissible content;
   * no system or tool message contributes.
   */
  lemma {:induction false} KeptSpec(ms: seq<GraphMessage>)
    ensures forall x :: x in Kept(ms) <==>
      exists g :: g in ms && (g.kind == HumanKind || g.kind == AiKind)
        && x.content == Trim(Py, g.content) && x.content != [] && Admissible(x.content)
        && (x.role == User <==> g.kind == HumanKind) && x.role != System
    decreases |ms|
  {
    if |ms| > 0 {
      var n := |ms| - 1;
      KeptSpec(ms[..n]);
      assert ms == ms[..n] + [ms[n]];
    }
  }

  /** The loop that builds `all_messages`. */
  method KeepMessages(ms: seq<GraphMessage>) returns (all: seq<Message>)
    ensures all == Kept(ms)
  {
    all := [];
    var i := 0;
    while i < |ms|
      invariant 0 <= i <= |ms|
      invariant all == Kept(ms[..i])
    {
      assert ms[..i + 1][..i] == ms[..i];
      var clean := Trim(Py, ms[i].content);
      if clean != [] && Admissible(clean) {
        if ms[i].kind == HumanKind {
          all := all + [Message(User, clean)];
        } else if ms[i].kind == AiKind {
          all := all + [Message(Assistant, clean)];
        }
      }
      i := i + 1;
    }
    assert ms[..i] == ms;
  }

  /** The reply: the last assistant message among the kept ones, or nothing. */
  function Latest(kept: seq<Message>): seq<Message> {
    var assistant := AssistantOnly(kept);
    if |assistant| > 0 then [assistant[|assistant| - 1]] else []
  }

  /** The reply of a run whose kept messages end with `m`: `m` itself when it is an assistant message, else the reply for the rest. */
  lemma LatestStep(kept: seq<Message>)
    requires |kept| > 0
    ensures kept[|kept| - 1].role == Assistant ==> Latest(kept) == [kept[|kept| - 1]]
    ensures kept[|kept| - 1].role != Assistant ==> Latest(kept) == Latest(kept[..|kept| - 1])
  {
    assert kept == kept[..|kept| - 1] + [kept[|kept| - 1]];
    AssistantOnlyAppend(kept[..|kept| - 1], [kept[|kept| - 1]]);
  }

  /** The last assistant message, found by scanning from the end. */
  function LastAssistant(kept: seq<Message>): (r: seq<Message>)
    ensures |r| <= 1
    decreases |kept|
  {
    if |kept| == 0 then []
    else if kept[|kept| - 1].role == Assistant then [kept[|kept| - 1]]
    else LastAssistant(kept[..|kept| - 1])
  }

  lemma {:induction false} LatestIsLast(kept: seq<Message>)
    ensures Latest(kept) == LastAssistant(kept)
    decreases |kept|
  {
    if |kept| > 0 {
      LatestStep(kept);
      LatestIsLast(kept[..|kept| - 1]);
    }
  }

  lemma {:induction false} LastAssistantSpec(kept: seq<Message>)
    ensures LastAssistant(kept) == [] <==> forall i :: 0 <= i < |kept| ==> kept[i].role != Assistant
    ensures LastAssistant(kept) != [] ==>
      exists i :: 0 <= i < |kept| && kept[i] == LastAssistant(kept)[0] && kept[i].role == Assistant
        && forall j :: i < j < |kept| ==> kept[j].role != Assistant
    decreases |kept|
  {
    if |kept| > 0 {
      var n := |kept| - 1;
      var pre := kept[..n];
      LastAssistantSpec(pre);
      assert forall i :: 0 <= i < n ==> kept[i] == pre[i];
      if kept[n].role != Assistant && LastAssistant(pre) != [] {
        var i :| 0 <= i < |pre| && pre[i] == LastAssistant(pre)[0] && pre[i].role == Assistant
          && forall j :: i < j < |pre| ==> pre[j].role != Assistant;
        assert kept[i] == pre[i];
      }
    }
  }

  /**
   * The reply is empty exactly when no kept message is an assistant message; otherwise
   * it is the one assistant message after which no kept message is an assistant message.
   */
  lemma LatestSpec(kept: seq<Message>)
    ensures |Latest(kept)| <= 1
    ensures Latest(kept) == [] <==> forall i :: 0 <= i < |kept| ==> kept[i].role != Assistant
    ensures Latest(kept) != [] ==>
      exists i :: 0 <= i < |kept| && kept[i] == Latest(kept)[0] && kept[i].role == Assistant
        && forall j :: i < j < |kept| ==> kept[j].role != Assistant
  {
    LatestIsLast(kept);
    LastAssistantSpec(kept);
  }

  /** Filtering one more message of the prefix appends it exactly when it is an assistant message. */
  lemma AssistantPrefixStep(all: seq<Message>, i: nat)
    requires i < |all|
    ensures all[i].role == Assistant ==> AssistantOnly(all[..i + 1]) == AssistantOnly(all[..i]) + [all[i]]
    ensures all[i].role != Assistant ==> AssistantOnly(all[..i + 1]) == AssistantOnly(all[..i])
  {
    assert all[..i + 1] == all[..i] + [all[i]];
    AssistantOnlyAppend(all[..i], [all[i]]);
    assert [all[i]][1..] == [];
  }

  /** `[msg for msg in all_messages if msg.role == "assistant"]` and its last element. */
  method LatestReply(all: seq<Message>) returns (reply: seq<Message>)
    ensures reply == Latest(all)
  {
    var assistant: seq<Message> := [];
    var i := 0;
    while i < |all|
      invariant 0 <= i <= |all|
      invariant assistant == AssistantOnly(all[..i])
    {
      AssistantPrefixStep(all, i);
      if all[i].role == Assistant {
        assistant := assistant + [all[i]];
      }
      i := i + 1;
    }
    assert all[..i] == all;
    assert assistant == AssistantOnly(all);
    if |assistant| > 0 {
      reply := [assistant[|assistant| - 1]];
    } else {
      reply := [];
    }
  }

  /** The history after a turn: the incoming messages, then the kept result messages, each added only when absent. */
  function Stored(history: seq<Message>, incoming: seq<Message>, result: Option<seq<GraphMessage>>): seq<Message> {
    var recorded := AppendNew(history, incoming);
    if result.None? then recorded else AppendNew(recorded, Kept(result.value))
  }

  /** The answer of a turn: the latest assistant message of a completed run; None when the run raised. */
  function Answer(result: Option<seq<GraphMessage>>): Option<seq<Message>> {
    if result.None? then None else Some(Latest(Kept(result.value)))
  }

  /**
   * A turn never shrinks the history and never introduces a repetition; the incoming
   * messages, and after a completed run every kept message, end up in it, and whatever
   * it gained was absent before.
   */
  lemma StoredSpec(history: seq<Message>, incoming: seq<Message>, result: Option<seq<GraphMessage>>)
    requires Distinct(history)
    ensures var h := Stored(history, incoming, result);
      history <= h && Distinct(h)
      && (forall m :: m in incoming ==> m in h)
      && (result.Some? ==> forall m :: m in Kept(result.value) ==> m in h)
      && (forall i :: |history| <= i < |h| ==> h[i] !in history)
  {
    var recorded := AppendNew(history, incoming);
    AppendNewSpec(history, incoming);
    if result.Some? {
      var h := AppendNew(recorded, Kept(result.value));
      AppendNewSpec(recorded, Kept(result.value));
      forall i | |history| <= i < |h| ensures h[i] !in history {
        if i >= |recorded| {
          assert h[i] !in recorded;
        } else {
          assert h[i] == recorded[i];
        }
      }
    }
  }

  /** The reply is at most one message, an assistant message of the result that the history now holds. */
  lemma AnswerSpec(history: seq<Message>, incoming: seq<Message>, result: Option<seq<GraphMessage>>)
    ensures Answer(result).None? <==> result.None?
    ensures Answer(result).Some? ==> |Answer(result).value| <= 1
    ensures Answer(result).Some? && |Answer(result).value| == 1 ==>
      Answer(result).value[0].role == Assistant && Answer(result).value[0] in Kept(result.value)
      && Answer(result).value[0] in Stored(history, incoming, result)
  {
    if result.Some? {
      var kept := Kept(result.value);
      LatestSpec(kept);
      AppendNewSpec(AppendNew(history, incoming), kept);
    }
  }

  class ConsultationEngine {
    var sessions: map<string, seq<Message>>

    /** Every stored history is free of repetitions. */
    predicate Valid()
      reads this
    {
      forall id :: id in sessions ==> Distinct(sessions[id])
    }

    constructor ()
      ensures sessions == map[] && Valid()
    {
      sessions := map[];
    }

    /**
     * `get_response`, with the graph run given. An unknown id starts from an empty
     * history. When the run raises, the incoming messages stay recorded (the history
     * list is updated in place) and no answer is produced.
     */
    method GetResponse(incoming: seq<Message>, sessionId: string, result: Option<seq<GraphMessage>>)
      returns (answer: Option<seq<Message>>)
      requires Valid()
      modifies this
      ensures Valid()
      ensures var history := if sessionId in old(sessions) then old(sessions)[sessionId] else [];
        sessions == old(sessions)[sessionId := Stored(history, incoming, result)]
      ensures answer == Answer(result)
    {
      var history := if sessionId in sessions then sessions[sessionId] else [];
      StoredSpec(history, incoming, result);
      var recorded := AppendAbsent(history, incoming);
      if result.None? {
        sessions := sessions[sessionId := recorded];
        return None;
      }
      var all := KeepMessages(result.value);
      var updated := AppendAbsent(recorded, all);
      sessions := sessions[sessionId := updated];
      var reply := LatestReply(all);
      answer := Some(reply);
    }

    /** `get_session_history`: the stored history, or [] for an unknown id. */
    method GetSessionHistory(sessionId: string) returns (history: seq<Message>)
      ensures sessionId in sessions ==> history == sessions[sessionId]
      ensures sessionId !in sessions ==> history == []
    {
      if sessionId in sessions {
        history := sessions[sessionId];
      } else {
        history := [];
      }
    }

    /** `clear_session`: reports whether the session existed, and removes it. */
    method ClearSession(sessionId: string) returns (existed: bool)
      requires Valid()
      modifies this
      ensures existed <==> sessionId in old(sessions)
      ensures sessions == old(sessions) - {sessionId}
      ensures Valid()
    {
      existed := sessionId in sessions;
      if existed {
        sessions := sessions - {sessionId};
      }
    }
  }
}
