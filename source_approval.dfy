/**
 * The source-approval card of the research UI (SourceApproval). The selection is a
 * JavaScript `Set`, which iterates in insertion order, so it is modelled as a
 * sequence without repetitions: adding appends, deleting removes in place.
 */
module SourceApproval {
  import opened Seqs

  /** One offered source, as the interrupt payload carries it. */
  datatype Source = Source(documentId: string, title: string, relevanceScore: real, reasoning: string, url: string)

  /** `toggleSelection`: delete the id when it is selected, add it at the end otherwise. */
  function Toggled(selected: seq<string>, id: string): seq<string> {
    if id in selected then Without(selected, id) else selected + [id]
  }

  /** Toggling flips the membership of the given id, leaves every other id as it was, and keeps the selection free of repetitions. */
  lemma ToggledSpec(selected: seq<string>, id: string)
    ensures id in Toggled(selected, id) <==> id !in selected
    ensures forall x :: x != id ==> (x in Toggled(selected, id) <==> x in selected)
    ensures Distinct(selected) ==> Distinct(Toggled(selected, id))
  {
    WithoutSpec(selected, id);
  }

  /** The ids of the offered sources, in order (`sources.map(s => s.document_id)`). */
  function IdsOf(sources: seq<Source>): (ids: seq<string>)
    ensures |ids| == |sources|
  {
    seq(|sources|, i requires 0 <= i < |sources| => sources[i].documentId)
  }

  /** `selectAll`: exactly the offered ids, each once, in the order they are offered. */
  lemma SelectAllSpec(sources: seq<Source>)
    ensures Distinct(AppendNew([], IdsOf(sources)))
    ensures forall x :: x in AppendNew([], IdsOf(sources)) <==> exists i :: 0 <= i < |sources| && sources[i].documentId == x
  {
    AppendNewSpec([], IdsOf(sources));
    forall x ensures x in IdsOf(sources) <==> exists i :: 0 <= i < |sources| && sources[i].documentId == x {
      if x in IdsOf(sources) {
        var i :| 0 <= i < |sources| && IdsOf(sources)[i] == x;
      }
      if exists i :: 0 <= i < |sources| && sources[i].documentId == x {
        var i :| 0 <= i < |sources| && sources[i].documentId == x;
        assert IdsOf(sources)[i] == x;
      }
    }
  }

  /** The qualitative label shown next to a relevance score. */
  datatype RelevanceLabel = High | Medium | Low

  function LabelOf(score: real): (l: RelevanceLabel)
    ensures l == High <==> score >= 0.8
    ensures l == Medium <==> 0.6 <= score < 0.8
    ensures l == Low <==> score < 0.6
  {
    if score >= 0.8 then High else if score >= 0.6 then Medium else Low
  }

  /** The answers of the three recovery buttons offered when no source was relevant. */
  const RetryIds: seq<string> := ["retry"]
  const BroadenIds: seq<string> := ["broaden"]
  const ProceedIds: seq<string> := ["proceed"]

  /** The component's selection state; `sources` and `isLoading` are its props. */
  class ApprovalCard {
    const sources: seq<Source>
    var selected: seq<string>

    predicate Valid()
      reads this
    {
      Distinct(selected)
    }

    /** The selection starts empty. */
    constructor (sources: seq<Source>)
      ensures this.sources == sources && selected == [] && Valid()
    {
      this.sources := sources;
      selected := [];
    }

    method ToggleSelection(documentId: string)
      requires Valid()
      modifies this
      ensures selected == Toggled(old(selected), documentId) && Valid()
    {
      ToggledSpec(selected, documentId);
      var next := selected;
      if documentId in next {
        next := Without(next, documentId);
      } else {
        next := next + [documentId];
      }
      selected := next;
    }

    /** A click on a card toggles it, unless a request is in flight. */
    method ClickCard(documentId: string, isLoading: bool)
      requires Valid()
      modifies this
      ensures isLoading ==> selected == old(selected)
      ensures !isLoading ==> selected == Toggled(old(selected), documentId)
      ensures Valid()
    {
      if !isLoading {
        ToggleSelection(documentId);
      }
    }

    method SelectAll()
      modifies this
      ensures selected == AppendNew([], IdsOf(sources)) && Valid()
    {
      SelectAllSpec(sources);
      selected := AppendNew([], IdsOf(sources));
    }

    method SelectNone()
      modifies this
      ensures selected == [] && Valid()
    {
      selected := [];
    }

    /** `handleApprove`: the selected ids in insertion order; with nothing selected, the empty list. */
    method Approve() returns (approvedIds: seq<string>)
      requires Valid()
      ensures approvedIds == selected && Distinct(approvedIds)
    {
      approvedIds := selected;
    }

    /** "Skip All" answers with the empty list: the same answer as approving an empty selection. */
    method SkipAll() returns (approvedIds: seq<string>)
      ensures approvedIds == []
    {
      approvedIds := [];
    }
  }
}
