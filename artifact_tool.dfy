/**
 * The research agent's `artifact` tool: a map from artifact id to a versioned
 * document, changed by the commands create, update and rewrite. The tool builds a
 * new map and returns it with a tool message; for an accepted command the message
 * is an `<artifact …>` element, the text the UI's artifact extractor reads back.
 * The `datetime.now()` stamp is a parameter.
 */
module ArtifactTool {
  import opened Wrappers
  import opened Text
  import opened ResearchState
  import ArtifactRenderer

  /** The arguments of one call; the optional ones are `None` when not passed. */
  datatype Args = Args(
    command: string,
    artifactId: string,
    title: Option<string>,
    artifactType: Option<string>,
    content: Option<string>,
    oldStr: Option<string>,
    newStr: Option<string>,
    stage: Option<string>)

  /** An optional argument counts as given when it is present and non-empty (`if not x` fails). */
  predicate Given(o: Option<string>) {
    o.Some? && o.value != []
  }

  /** `x or fallback`. */
  function Or(o: Option<string>, fallback: string): (r: string)
    ensures Given(o) ==> r == o.value
    ensures !Given(o) ==> r == fallback
  {
    if Given(o) then o.value else fallback
  }

  /**
   * The state update a call returns: the new artifact map (None when the
   * update does not write it), `current_artifact_id` (written by create only)
   * and the text of the tool message.
   */
  datatype ToolUpdate = ToolUpdate(
    artifacts: Option<map<string, Artifact>>,
    currentArtifactId: Option<string>,
    message: string)

  /** An update that only reports a message. */
  function Reply(message: string): (u: ToolUpdate)
    ensures u.artifacts.None? && u.currentArtifactId.None? && u.message == message
  {
    ToolUpdate(None, None, message)
  }

  /** The attributes of an element, each written as ` name="value"`. */
  function AttrText(pairs: seq<(string, string)>): string
    decreases |pairs|
  {
    if |pairs| == 0 then []
    else " " + pairs[0].0 + "=\"" + pairs[0].1 + "\"" + AttrText(pairs[1..])
  }

  /** The body between the tags: the content on its own lines. */
  function Body(content: string): string {
    "\n" + content + "\n"
  }

  /** An `<artifact …>` element: the open tag with the attributes, the body, the closing tag. */
  function Element(pairs: seq<(string, string)>, content: string): string {
    ArtifactRenderer.OpenTag + AttrText(pairs) + ">" + Body(content) + ArtifactRenderer.CloseTag
  }

  function CreateAttrs(id: string, title: string, artifactType: string, stage: string): seq<(string, string)> {
    [("command", "create"), ("artifact_id", id), ("title", title), ("type", artifactType), ("stage", stage)]
  }

  function UpdateAttrs(id: string, oldStr: string, newStr: string): seq<(string, string)> {
    [("command", "update"), ("artifact_id", id), ("old_str", oldStr), ("new_str", newStr)]
  }

  function RewriteAttrs(id: string): seq<(string, string)> {
    [("command", "rewrite"), ("artifact_id", id)]
  }

  /** `create`: a new artifact at version 1, replacing any artifact with that id. */
  function Create(args: Args, artifacts: map<string, Artifact>, createdAt: string): ToolUpdate {
    if !Given(args.title) || !Given(args.artifactType) || !Given(args.content) then
      Reply("Create command requires title, artifact_type, and content")
    else
      var stage := Or(args.stage, "draft");
      var first := NewVersion(1, args.content.value, createdAt, stage);
      var created := Artifact(args.artifactId, args.title.value, args.artifactType.value, 1, map[1 := first]);
      ToolUpdate(
        Some(artifacts[args.artifactId := created]),
        Some(args.artifactId),
        Element(CreateAttrs(args.artifactId, args.title.value, args.artifactType.value, stage), args.content.value))
  }

  /** An artifact with one more version holding `content`; id, title and type are kept. */
  function Revised(a: Artifact, content: string, createdAt: string, stage: string): Artifact {
    var n := a.currentVersion + 1;
    Artifact(a.id, a.title, a.artifactType, n, a.versions[n := NewVersion(n, content, createdAt, stage)])
  }

  /** A present, non-empty search string occurs only in a non-empty content, which a stored version supplies. */
  lemma ContainedMeansStored(a: Artifact, oldStr: string)
    requires oldStr != [] && Contains(CurrentContent(a), oldStr)
    ensures a.currentVersion in a.versions
  {
  }

  /**
   * `update`: every occurrence of `old_str` in the current content replaced by
   * `new_str`, as a new version. The inherited stage is looked up only when
   * `old_str` was found, so the current version is stored and the lookup
   * cannot fail.
   */
  function Update(args: Args, artifacts: map<string, Artifact>, createdAt: string): ToolUpdate {
    if !Given(args.oldStr) || !Given(args.newStr) then
      Reply("Update command requires old_str and new_str")
    else if args.artifactId !in artifacts then
      Reply("Artifact " + args.artifactId + " not found")
    else
      var a := artifacts[args.artifactId];
      var current := CurrentContent(a);
      if !Contains(current, args.oldStr.value) then
        Reply("String '" + args.oldStr.value + "' not found in artifact")
      else
        ContainedMeansStored(a, args.oldStr.value);
        var replaced := ReplaceAll(current, args.oldStr.value, args.newStr.value);
        var stage := if Given(args.stage) then args.stage.value else a.versions[a.currentVersion].stage;
        ToolUpdate(
          Some(artifacts[args.artifactId := Revised(a, replaced, createdAt, stage)]),
          None,
          Element(UpdateAttrs(args.artifactId, args.oldStr.value, args.newStr.value), replaced))
  }

  /**
   * `rewrite`: the given content as a new version. Without a stage argument the
   * current version's stage is looked up, and when that version is not stored the
   * lookup raises: the result is then None.
   */
  function Rewrite(args: Args, artifacts: map<string, Artifact>, createdAt: string): Option<ToolUpdate> {
    if !Given(args.content) then
      Some(Reply("Rewrite command requires content"))
    else if args.artifactId !in artifacts then
      Some(Reply("Artifact " + args.artifactId + " not found"))
    else
      var a := artifacts[args.artifactId];
      if !Given(args.stage) && a.currentVersion !in a.versions then None
      else
        var stage := if Given(args.stage) then args.stage.value else a.versions[a.currentVersion].stage;
        Some(ToolUpdate(
          Some(artifacts[args.artifactId := Revised(a, args.content.value, createdAt, stage)]),
          None,
          Element(RewriteAttrs(args.artifactId), args.content.value)))
  }

  /** The tool: dispatch on the command; None when the call raises. */
  function Run(args: Args, artifacts: map<string, Artifact>, createdAt: string): Option<ToolUpdate> {
    if args.command == "create" then Some(Create(args, artifacts, createdAt))
    else if args.command == "update" then Some(Update(args, artifacts, createdAt))
    else if args.command == "rewrite" then Rewrite(args, artifacts, createdAt)
    else Some(Reply("Unknown command: " + args.command))
  }

  /** The calls that write the artifact map: the required arguments are given and the artifact is found. */
  predicate Accepted(args: Args, artifacts: map<string, Artifact>) {
    || (args.command == "create" && Given(args.title) && Given(args.artifactType) && Given(args.content))
    || (args.command == "update" && Given(args.oldStr) && Given(args.newStr) && args.artifactId in artifacts
        && Contains(CurrentContent(artifacts[args.artifactId]), args.oldStr.value))
    || (args.command == "rewrite" && Given(args.content) && args.artifactId in artifacts)
  }

  /** Only a rewrite without a stage of an artifact whose current version is not stored raises. */
  lemma RunRaises(args: Args, artifacts: map<string, Artifact>, createdAt: string)
    ensures Run(args, artifacts, createdAt).None? <==>
      args.command == "rewrite" && Given(args.content) && args.artifactId in artifacts && !Given(args.stage)
      && artifacts[args.artifactId].currentVersion !in artifacts[args.artifactId].versions
  {
  }

  /**
   * A call writes the artifact map exactly when it is accepted; every other call
   * leaves the map and the current artifact id untouched and only reports why.
   */
  lemma WritesIffAccepted(args: Args, artifacts: map<string, Artifact>, createdAt: string)
    requires Run(args, artifacts, createdAt).Some?
    ensures Run(args, artifacts, createdAt).value.artifacts.Some? <==> Accepted(args, artifacts)
    ensures !Accepted(args, artifacts) ==> Run(args, artifacts, createdAt).value.currentArtifactId.None?
  {
  }

  /** The message of each rejected create, and of an unknown command. */
  lemma CreateRejections(args: Args, artifacts: map<string, Artifact>, createdAt: string)
    ensures args.command == "create" && !(Given(args.title) && Given(args.artifactType) && Given(args.content)) ==>
      Run(args, artifacts, createdAt) == Some(Reply("Create command requires title, artifact_type, and content"))
    ensures args.command != "create" && args.command != "update" && args.command != "rewrite" ==>
      Run(args, artifacts, createdAt) == Some(Reply("Unknown command: " + args.command))
  {
  }

  /** The message of each rejected update: missing strings, unknown id, search string absent. */
  lemma UpdateRejections(args: Args, artifacts: map<string, Artifact>, createdAt: string)
    requires args.command == "update"
    ensures !(Given(args.oldStr) && Given(args.newStr)) ==>
      Run(args, artifacts, createdAt) == Some(Reply("Update command requires old_str and new_str"))
    ensures Given(args.oldStr) && Given(args.newStr) && args.artifactId !in artifacts ==>
      Run(args, artifacts, createdAt) == Some(Reply("Artifact " + args.artifactId + " not found"))
    ensures Given(args.oldStr) && Given(args.newStr) && args.artifactId in artifacts ==>
      (!Contains(CurrentContent(artifacts[args.artifactId]), args.oldStr.value) ==>
       Run(args, artifacts, createdAt) == Some(Reply("String '" + args.oldStr.value + "' not found in artifact")))
  {
  }

  /** The message of each rejected rewrite: missing content, unknown id. */
  lemma RewriteRejections(args: Args, artifacts: map<string, Artifact>, createdAt: string)
    requires args.command == "rewrite"
    ensures !Given(args.content) ==>
      Run(args, artifacts, createdAt) == Some(Reply("Rewrite command requires content"))
    ensures Given(args.content) && args.artifactId !in artifacts ==>
      Run(args, artifacts, createdAt) == Some(Reply("Artifact " + args.artifactId + " not found"))
  {
  }

  /** Version numbers run from 1 to the current version. */
  predicate Versioned(a: Artifact) {
    a.currentVersion >= 1 && forall v :: v in a.versions ==> 1 <= v <= a.currentVersion
  }

  /**
   * An accepted create stores version 1 with the given content and the stage
   * defaulting to "draft", replaces any artifact with that id, keeps every other
   * artifact and makes the new one current; its current content is the content given.
   */
  lemma CreateSpec(args: Args, artifacts: map<string, Artifact>, createdAt: string)
    requires args.command == "create" && Accepted(args, artifacts)
    ensures var u := Run(args, artifacts, createdAt).value;
      && u.artifacts.Some? && u.currentArtifactId == Some(args.artifactId)
      && args.artifactId in u.artifacts.value
      && (forall k :: k != args.artifactId ==> (k in u.artifacts.value <==> k in artifacts))
      && (forall k :: k != args.artifactId && k in artifacts ==> u.artifacts.value[k] == artifacts[k])
  {
  }

  lemma CreatedArtifact(args: Args, artifacts: map<string, Artifact>, createdAt: string)
    requires args.command == "create" && Accepted(args, artifacts)
    ensures var a := Run(args, artifacts, createdAt).value.artifacts.value[args.artifactId];
      && a.id == args.artifactId && a.title == args.title.value && a.artifactType == args.artifactType.value
      && a.currentVersion == 1 && a.versions.Keys == {1} && Versioned(a)
      && CurrentContent(a) == args.content.value
      && a.versions[1].stage == (if Given(args.stage) then args.stage.value else "draft")
      && a.versions[1].createdAt == createdAt && a.versions[1].feedback == []
  {
  }

  /**
   * A revision raises the version by one, keeps id, title and type, keeps every
   * version but the next one's number, and keeps the version invariant; under that
   * invariant every older version is kept.
   */
  lemma RevisedSpec(a: Artifact, content: string, createdAt: string, stage: string)
    ensures var r := Revised(a, content, createdAt, stage);
      && r.id == a.id && r.title == a.title && r.artifactType == a.artifactType
      && r.currentVersion == a.currentVersion + 1
      && CurrentContent(r) == content && r.versions[r.currentVersion].stage == stage
      && r.versions.Keys == a.versions.Keys + {r.currentVersion}
      && (forall v :: v in a.versions && v != r.currentVersion ==> r.versions[v] == a.versions[v])
      && (Versioned(a) ==> Versioned(r) && forall v :: v in a.versions ==> r.versions[v] == a.versions[v])
  {
  }

  /** What an accepted update or rewrite stores: the revision of the artifact, all other artifacts untouched. */
  lemma RevisionStored(args: Args, artifacts: map<string, Artifact>, createdAt: string)
    requires (args.command == "update" || args.command == "rewrite") && Accepted(args, artifacts)
    requires Run(args, artifacts, createdAt).Some?
    ensures var u := Run(args, artifacts, createdAt).value;
      var a := artifacts[args.artifactId];
      && u.artifacts.Some? && u.currentArtifactId.None?
      && u.artifacts.value.Keys == artifacts.Keys
      && (forall k :: k in artifacts && k != args.artifactId ==> u.artifacts.value[k] == artifacts[k])
  {
  }

  /**
   * An accepted update stores the current content with every occurrence of
   * `old_str` replaced: the pieces between the occurrences, rejoined with
   * `new_str` instead. The stage is the one given, or the current version's.
   */
  lemma UpdateSpec(args: Args, artifacts: map<string, Artifact>, createdAt: string)
    requires args.command == "update" && Accepted(args, artifacts)
    ensures var a := artifacts[args.artifactId];
      var r := Run(args, artifacts, createdAt).value.artifacts.value[args.artifactId];
      var pieces := SplitOn(CurrentContent(a), args.oldStr.value);
      && Join(pieces, args.oldStr.value) == CurrentContent(a)
      && CurrentContent(r) == Join(pieces, args.newStr.value)
      && a.currentVersion in a.versions
      && (Versioned(a) ==> Versioned(r) && forall v :: v in a.versions ==> r.versions[v] == a.versions[v])
      && r == Revised(a, CurrentContent(r), createdAt,
                      if Given(args.stage) then args.stage.value else a.versions[a.currentVersion].stage)
  {
    var a := artifacts[args.artifactId];
    ContainedMeansStored(a, args.oldStr.value);
    SplitJoinIdentity(CurrentContent(a), args.oldStr.value);
    ReplaceAllIsSplitJoin(CurrentContent(a), args.oldStr.value, args.newStr.value);
    RevisedSpec(a, ReplaceAll(CurrentContent(a), args.oldStr.value, args.newStr.value), createdAt,
                if Given(args.stage) then args.stage.value else a.versions[a.currentVersion].stage);
  }

  /** An accepted rewrite that does not raise stores the given content, with the stage given or inherited. */
  lemma RewriteSpec(args: Args, artifacts: map<string, Artifact>, createdAt: string)
    requires args.command == "rewrite" && Accepted(args, artifacts)
    requires Run(args, artifacts, createdAt).Some?
    ensures var a := artifacts[args.artifactId];
      var r := Run(args, artifacts, createdAt).value.artifacts.value[args.artifactId];
      && CurrentContent(r) == args.content.value
      && (Given(args.stage) || a.currentVersion in a.versions)
      && (Versioned(a) ==> Versioned(r) && forall v :: v in a.versions ==> r.versions[v] == a.versions[v])
      && r == Revised(a, args.content.value, createdAt,
                      if Given(args.stage) then args.stage.value else a.versions[a.currentVersion].stage)
  {
    var a := artifacts[args.artifactId];
    RevisedSpec(a, args.content.value, createdAt,
                if Given(args.stage) then args.stage.value else a.versions[a.currentVersion].stage);
  }

  /** Every artifact of the map keeps the version invariant. */
  predicate AllVersioned(artifacts: map<string, Artifact>) {
    forall k :: k in artifacts ==> Versioned(artifacts[k])
  }

  /** No call breaks the version invariant, so an update or rewrite always keeps all older versions. */
  lemma RunKeepsVersioned(args: Args, artifacts: map<string, Artifact>, createdAt: string)
    requires AllVersioned(artifacts)
    requires Run(args, artifacts, createdAt).Some? && Run(args, artifacts, createdAt).value.artifacts.Some?
    ensures AllVersioned(Run(args, artifacts, createdAt).value.artifacts.value)
  {
    var m := Run(args, artifacts, createdAt).value.artifacts.value;
    WritesIffAccepted(args, artifacts, createdAt);
    if args.command == "create" {
      CreatedArtifact(args, artifacts, createdAt);
      CreateSpec(args, artifacts, createdAt);
    } else if args.command == "update" {
      UpdateSpec(args, artifacts, createdAt);
      RevisionStored(args, artifacts, createdAt);
    } else {
      RewriteSpec(args, artifacts, createdAt);
      RevisionStored(args, artifacts, createdAt);
    }
  }

  /* The element a command writes, read back by the UI's artifact extractor. */

  /** A name the attribute pattern reads whole: one or more word characters. */
  predicate AttrName(k: string) {
    |k| >= 1 && forall j :: 0 <= j < |k| ==> IsWordChar(k[j])
  }

  /** A value that neither ends the attribute (`"`) nor the tag (`>`). */
  predicate AttrValue(v: string) {
    ArtifactRenderer.NoQuote(v) && ArtifactRenderer.NoGt(v)
  }

  predicate Writable(pairs: seq<(string, string)>) {
    forall i :: 0 <= i < |pairs| ==> AttrName(pairs[i].0) && AttrValue(pairs[i].1)
  }

  lemma NoGtJoin(a: string, b: string)
    requires ArtifactRenderer.NoGt(a) && ArtifactRenderer.NoGt(b)
    ensures ArtifactRenderer.NoGt(a + b)
  {
    assert forall i :: |a| <= i < |a + b| ==> (a + b)[i] == b[i - |a|];
  }

  lemma AttrNameNoGt(k: string)
    requires AttrName(k)
    ensures ArtifactRenderer.NoGt(k) && !IsSpace(Js, k[0])
  {
    VisibleNotSpace(Js, k[0]);
  }

  lemma AttrTextStep(pairs: seq<(string, string)>)
    requires |pairs| > 0
    ensures AttrText(pairs) == " " + (pairs[0].0 + "=\"" + pairs[0].1 + "\"" + AttrText(pairs[1..]))
  {
  }

  lemma WritableTail(pairs: seq<(string, string)>)
    requires |pairs| > 0 && Writable(pairs)
    ensures Writable(pairs[1..]) && AttrName(pairs[0].0) && AttrValue(pairs[0].1)
  {
    assert forall i :: 0 <= i < |pairs| - 1 ==> pairs[1..][i] == pairs[i + 1];
  }

  /** The attribute scan reads the written attributes back, in order. */
  lemma {:induction false} AttrTextRead(pairs: seq<(string, string)>)
    requires Writable(pairs)
    ensures ArtifactRenderer.AttrPairs(AttrText(pairs)) == pairs
    decreases |pairs|
  {
    if |pairs| > 0 {
      var k := pairs[0].0;
      var v := pairs[0].1;
      var rest := AttrText(pairs[1..]);
      WritableTail(pairs);
      AttrTextRead(pairs[1..]);
      AttrTextStep(pairs);
      ArtifactRenderer.AttrPairsSpace(k + "=\"" + v + "\"" + rest);
      ArtifactRenderer.AttrPairsWritten(k, v, rest);
      assert [(k, v)] + pairs[1..] == pairs;
    }
  }

  /** The written attributes hold no `>`, so the tag ends where the element's tag ends. */
  lemma {:induction false} AttrTextNoGt(pairs: seq<(string, string)>)
    requires Writable(pairs)
    ensures ArtifactRenderer.NoGt(AttrText(pairs))
    decreases |pairs|
  {
    if |pairs| > 0 {
      var k := pairs[0].0;
      var v := pairs[0].1;
      WritableTail(pairs);
      AttrTextNoGt(pairs[1..]);
      AttrTextStep(pairs);
      AttrNameNoGt(k);
      NoGtJoin(" ", k);
      NoGtJoin(" " + k, "=\"");
      NoGtJoin(" " + k + "=\"", v);
      NoGtJoin(" " + k + "=\"" + v, "\"");
      NoGtJoin(" " + k + "=\"" + v + "\"", AttrText(pairs[1..]));
    }
  }

  /** A content without a closing tag gives a body that the nearest closing tag ends. */
  lemma BodyClosesOnce(content: string)
    requires !Contains(content, ArtifactRenderer.CloseTag)
    ensures ArtifactRenderer.NoEarlierClose(Body(content))
  {
    var body := Body(content);
    var close := ArtifactRenderer.CloseTag;
    var t := body + close;
    var p := |content| + 1;
    ContainsIff(content, close);
    assert t[0] == '\n' && t[p] == body[p] == '\n';
    forall j | 0 <= j < |body| ensures !OccursAt(t, close, j) {
      if j == 0 {
        NewlineBreaksClose(t, 0, 0);
      } else if j + |close| <= p {
        assert t[j..j + |close|] == content[j - 1..j - 1 + |close|];
        assert !OccursAt(content, close, j - 1);
      } else {
        NewlineBreaksClose(t, j, p);
      }
    }
  }

  /** A closing tag holds no line break, so none starts where one falls within its length. */
  lemma NewlineBreaksClose(t: string, j: nat, k: nat)
    requires j <= k < j + |ArtifactRenderer.CloseTag| && k < |t| && t[k] == '\n'
    ensures !OccursAt(t, ArtifactRenderer.CloseTag, j)
  {
    var close := ArtifactRenderer.CloseTag;
    assert '\n' !in close;
    assert close[k - j] in close;
    if j + |close| <= |t| {
      assert t[j..j + |close|][k - j] == '\n';
    }
  }

  /** The match the block pattern makes on an element. */
  function BlockOf(pairs: seq<(string, string)>, content: string): ArtifactRenderer.BlockMatch {
    var head := AttrText(pairs);
    ArtifactRenderer.BlockMatch(head, if |head| > 0 then head[1..] else [], Body(content), |Element(pairs, content)|)
  }

  /** The head of an element: one space, then attributes starting with a word character, and no `>`. */
  lemma HeadShape(pairs: seq<(string, string)>)
    requires |pairs| > 0 && Writable(pairs)
    ensures var head := AttrText(pairs);
      && |head| >= 2 && head[0] == ' ' && !IsSpace(Js, head[1]) && ArtifactRenderer.NoGt(head)
  {
    AttrTextNoGt(pairs);
    WritableTail(pairs);
    AttrTextStep(pairs);
    AttrNameNoGt(pairs[0].0);
  }

  lemma ElementBlock(pairs: seq<(string, string)>, content: string)
    requires |pairs| > 0 && Writable(pairs) && !Contains(content, ArtifactRenderer.CloseTag)
    ensures var b := BlockOf(pairs, content);
      && ArtifactRenderer.WellFormedBlock(b) && ArtifactRenderer.BlockText(b) == Element(pairs, content)
  {
    var head := AttrText(pairs);
    var b := BlockOf(pairs, content);
    HeadShape(pairs);
    assert IsSpace(Js, head[0]);
    assert b.attrs == head[|head| - |b.attrs|..];
    assert head[..|head| - |b.attrs|] == [' '];
    BodyClosesOnce(content);
  }

  lemma ElementAttrs(pairs: seq<(string, string)>, content: string)
    requires |pairs| > 0 && Writable(pairs)
    ensures ArtifactRenderer.AttrPairs(BlockOf(pairs, content).attrs) == pairs
    ensures Trim(Js, BlockOf(pairs, content).body) == Trim(Js, content)
  {
    var head := AttrText(pairs);
    HeadShape(pairs);
    AttrTextRead(pairs);
    assert head == " " + head[1..];
    ArtifactRenderer.AttrPairsSpace(head[1..]);
    TrimPadded(Js, "\n", content, "\n");
  }

  /**
   * An element whose attribute values hold no `"` or `>` and whose content holds no
   * closing tag is exactly one block to the extractor, with those attributes in
   * order and the content trimmed; nothing outside it remains.
   */
  lemma ElementParsed(pairs: seq<(string, string)>, content: string)
    requires |pairs| > 0 && Writable(pairs) && !Contains(content, ArtifactRenderer.CloseTag)
    ensures ArtifactRenderer.Blocks(Element(pairs, content)) == [BlockOf(pairs, content)]
    ensures ArtifactRenderer.RemoveBlocks(Element(pairs, content)) == []
    ensures ArtifactRenderer.AttrPairs(BlockOf(pairs, content).attrs) == pairs
    ensures Trim(Js, BlockOf(pairs, content).body) == Trim(Js, content)
  {
    var b := BlockOf(pairs, content);
    var none: string := [];
    ElementBlock(pairs, content);
    ElementAttrs(pairs, content);
    ArtifactRenderer.BlockFirst(b, none);
    assert ArtifactRenderer.BlockText(b) + none == Element(pairs, content);
    assert ArtifactRenderer.Tokens(none) == [];
  }

  /** The extractor's artifact list for an element: the one artifact its block gives. */
  lemma ElementArtifacts(pairs: seq<(string, string)>, content: string, fallback: nat -> string)
    requires |pairs| > 0 && Writable(pairs) && !Contains(content, ArtifactRenderer.CloseTag)
    ensures ArtifactRenderer.Artifacts(Element(pairs, content), fallback)
      == [ArtifactRenderer.ToArtifact(BlockOf(pairs, content), fallback(0))]
  {
    ElementParsed(pairs, content);
  }

  lemma AssignStep(m: map<string, string>, pairs: seq<(string, string)>)
    requires |pairs| > 0
    ensures ArtifactRenderer.Assign(m, pairs) == ArtifactRenderer.Assign(m[pairs[0].0 := pairs[0].1], pairs[1..])
  {
  }

  /** The attributes of a create element, each under its own name. */
  lemma CreateAttributes(id: string, title: string, artifactType: string, stage: string)
    ensures ArtifactRenderer.Assign(map[], CreateAttrs(id, title, artifactType, stage)) == CreateMap(id, title, artifactType, stage)
  {
    var ps := CreateAttrs(id, title, artifactType, stage);
    AssignStep(map[], ps);
    AssignStep(map["command" := "create"], ps[1..]);
    AssignStep(map["command" := "create", "artifact_id" := id], ps[2..]);
    AssignStep(map["command" := "create", "artifact_id" := id, "title" := title], ps[3..]);
    AssignStep(map["command" := "create", "artifact_id" := id, "title" := title, "type" := artifactType], ps[4..]);
    assert ps[1..][1..] == ps[2..] && ps[2..][1..] == ps[3..] && ps[3..][1..] == ps[4..] && ps[4..][1..] == [];
  }

  lemma UpdateAttributes(id: string, oldStr: string, newStr: string)
    ensures ArtifactRenderer.Assign(map[], UpdateAttrs(id, oldStr, newStr)) == UpdateMap(id, oldStr, newStr)
  {
    var ps := UpdateAttrs(id, oldStr, newStr);
    AssignStep(map[], ps);
    AssignStep(map["command" := "update"], ps[1..]);
    AssignStep(map["command" := "update", "artifact_id" := id], ps[2..]);
    AssignStep(map["command" := "update", "artifact_id" := id, "old_str" := oldStr], ps[3..]);
    assert ps[1..][1..] == ps[2..] && ps[2..][1..] == ps[3..] && ps[3..][1..] == [];
  }

  lemma RewriteAttributes(id: string)
    ensures ArtifactRenderer.Assign(map[], RewriteAttrs(id)) == RewriteMap(id)
  {
    var ps := RewriteAttrs(id);
    AssignStep(map[], ps);
    AssignStep(map["command" := "rewrite"], ps[1..]);
    assert ps[1..][1..] == [];
  }

  /** The names the tool writes are read whole by the attribute pattern. */
  lemma NamesReadable()
    ensures AttrName("command") && AttrName("artifact_id") && AttrName("title") && AttrName("type")
    ensures AttrName("stage") && AttrName("old_str") && AttrName("new_str")
    ensures AttrValue("create") && AttrValue("update") && AttrValue("rewrite") && AttrValue("draft")
  {
  }

  /** The artifact id the extractor reports: the written id, or its fallback token for an empty one. */
  function ReadId(id: string, fallbackId: string): string {
    if id != [] then id else fallbackId
  }

  /** The extractor reads a create element back field by field. */
  lemma ReadCreate(id: string, title: string, artifactType: string, stage: string, content: string, fallback: nat -> string)
    requires AttrValue(id) && AttrValue(title) && AttrValue(artifactType) && AttrValue(stage)
    requires !Contains(content, ArtifactRenderer.CloseTag)
    ensures var text := Element(CreateAttrs(id, title, artifactType, stage), content);
      && ArtifactRenderer.Artifacts(text, fallback) == [ArtifactRenderer.ArtifactData(
           "create", ReadId(id, fallback(0)), Some(title), Some(artifactType), Some(stage), Trim(Js, content))]
      && ArtifactRenderer.RemoveBlocks(text) == []
  {
    var ps := CreateAttrs(id, title, artifactType, stage);
    NamesReadable();
    assert Writable(ps);
    ElementParsed(ps, content);
    ElementArtifacts(ps, content, fallback);
    CreateAttributes(id, title, artifactType, stage);
    ArtifactFrom(BlockOf(ps, content), fallback(0), CreateMap(id, title, artifactType, stage), Trim(Js, content));
    CreateLookups(id, title, artifactType, stage, fallback(0));
  }

  /** The artifact built from a block whose attributes are `m` and whose trimmed body is `body`. */
  lemma ArtifactFrom(b: ArtifactRenderer.BlockMatch, fallbackId: string, m: map<string, string>, body: string)
    requires ArtifactRenderer.Attributes(b.attrs) == m && Trim(Js, b.body) == body
    ensures ArtifactRenderer.ToArtifact(b, fallbackId) == ArtifactRenderer.ArtifactData(
      ArtifactRenderer.OrElse(ArtifactRenderer.Lookup(m, "command"), "create"),
      ArtifactRenderer.OrElse(ArtifactRenderer.Lookup(m, "artifact_id"), fallbackId),
      ArtifactRenderer.Lookup(m, "title"), ArtifactRenderer.Lookup(m, "type"), ArtifactRenderer.Lookup(m, "stage"), body)
  {
  }

  function CreateMap(id: string, title: string, artifactType: string, stage: string): map<string, string> {
    map["command" := "create", "artifact_id" := id, "title" := title, "type" := artifactType, "stage" := stage]
  }

  function UpdateMap(id: string, oldStr: string, newStr: string): map<string, string> {
    map["command" := "update", "artifact_id" := id, "old_str" := oldStr, "new_str" := newStr]
  }

  function RewriteMap(id: string): map<string, string> {
    map["command" := "rewrite", "artifact_id" := id]
  }

  /** What the extractor looks up in a create element's attributes. */
  lemma CreateLookups(id: string, title: string, artifactType: string, stage: string, fallbackId: string)
    ensures var m := CreateMap(id, title, artifactType, stage);
      && ArtifactRenderer.OrElse(ArtifactRenderer.Lookup(m, "command"), "create") == "create"
      && ArtifactRenderer.OrElse(ArtifactRenderer.Lookup(m, "artifact_id"), fallbackId) == ReadId(id, fallbackId)
      && ArtifactRenderer.Lookup(m, "title") == Some(title) && ArtifactRenderer.Lookup(m, "type") == Some(artifactType)
      && ArtifactRenderer.Lookup(m, "stage") == Some(stage)
  {
  }

  /** What the extractor looks up in an update element's attributes. */
  lemma UpdateLookups(id: string, oldStr: string, newStr: string, fallbackId: string)
    ensures var m := UpdateMap(id, oldStr, newStr);
      && ArtifactRenderer.OrElse(ArtifactRenderer.Lookup(m, "command"), "create") == "update"
      && ArtifactRenderer.OrElse(ArtifactRenderer.Lookup(m, "artifact_id"), fallbackId) == ReadId(id, fallbackId)
      && ArtifactRenderer.Lookup(m, "title") == None && ArtifactRenderer.Lookup(m, "type") == None
      && ArtifactRenderer.Lookup(m, "stage") == None
  {
  }

  /** What the extractor looks up in a rewrite element's attributes. */
  lemma RewriteLookups(id: string, fallbackId: string)
    ensures var m := RewriteMap(id);
      && ArtifactRenderer.OrElse(ArtifactRenderer.Lookup(m, "command"), "create") == "rewrite"
      && ArtifactRenderer.OrElse(ArtifactRenderer.Lookup(m, "artifact_id"), fallbackId) == ReadId(id, fallbackId)
      && ArtifactRenderer.Lookup(m, "title") == None && ArtifactRenderer.Lookup(m, "type") == None
      && ArtifactRenderer.Lookup(m, "stage") == None
  {
  }

  lemma UpdateWritable(id: string, oldStr: string, newStr: string)
    requires AttrValue(id) && AttrValue(oldStr) && AttrValue(newStr)
    ensures Writable(UpdateAttrs(id, oldStr, newStr))
  {
    NamesReadable();
  }

  /** The extractor reads an update element back: command, id, and no title, type or stage. */
  lemma ReadUpdate(id: string, oldStr: string, newStr: string, content: string, fallback: nat -> string)
    requires AttrValue(id) && AttrValue(oldStr) && AttrValue(newStr)
    requires !Contains(content, ArtifactRenderer.CloseTag)
    ensures var text := Element(UpdateAttrs(id, oldStr, newStr), content);
      && ArtifactRenderer.Artifacts(text, fallback) == [ArtifactRenderer.ArtifactData(
           "update", ReadId(id, fallback(0)), None, None, None, Trim(Js, content))]
      && ArtifactRenderer.RemoveBlocks(text) == []
  {
    var ps := UpdateAttrs(id, oldStr, newStr);
    UpdateWritable(id, oldStr, newStr);
    ElementParsed(ps, content);
    ElementArtifacts(ps, content, fallback);
    UpdateAttributes(id, oldStr, newStr);
    ArtifactFrom(BlockOf(ps, content), fallback(0), UpdateMap(id, oldStr, newStr), Trim(Js, content));
    UpdateLookups(id, oldStr, newStr, fallback(0));
  }

  /** The extractor reads a rewrite element back: command, id, and no title, type or stage. */
  lemma ReadRewrite(id: string, content: string, fallback: nat -> string)
    requires AttrValue(id) && !Contains(content, ArtifactRenderer.CloseTag)
    ensures var text := Element(RewriteAttrs(id), content);
      && ArtifactRenderer.Artifacts(text, fallback) == [ArtifactRenderer.ArtifactData(
           "rewrite", ReadId(id, fallback(0)), None, None, None, Trim(Js, content))]
      && ArtifactRenderer.RemoveBlocks(text) == []
  {
    var ps := RewriteAttrs(id);
    NamesReadable();
    assert Writable(ps);
    ElementParsed(ps, content);
    ElementArtifacts(ps, content, fallback);
    RewriteAttributes(id);
    ArtifactFrom(BlockOf(ps, content), fallback(0), RewriteMap(id), Trim(Js, content));
    RewriteLookups(id, fallback(0));
  }

  /**
   * Round trip with the UI: when id, title, type and stage hold no `"` or `>` and
   * the content holds no closing tag, the extractor reads the create message as
   * exactly one artifact with command "create", the same id, title, type and
   * stage, and the content trimmed; nothing else of the message is shown.
   */
  lemma CreateRoundTrip(args: Args, artifacts: map<string, Artifact>, createdAt: string, fallback: nat -> string)
    requires args.command == "create" && Accepted(args, artifacts)
    requires AttrValue(args.artifactId) && AttrValue(args.title.value) && AttrValue(args.artifactType.value)
    requires Given(args.stage) ==> AttrValue(args.stage.value)
    requires !Contains(args.content.value, ArtifactRenderer.CloseTag)
    ensures var text := Run(args, artifacts, createdAt).value.message;
      && ArtifactRenderer.Artifacts(text, fallback) == [ArtifactRenderer.ArtifactData(
           "create", ReadId(args.artifactId, fallback(0)), Some(args.title.value), Some(args.artifactType.value),
           Some(Or(args.stage, "draft")), Trim(Js, args.content.value))]
      && ArtifactRenderer.RemoveBlocks(text) == []
  {
    NamesReadable();
    ReadCreate(args.artifactId, args.title.value, args.artifactType.value, Or(args.stage, "draft"), args.content.value, fallback);
  }

  /** The message and the new content of an accepted update. */
  lemma UpdateWrites(args: Args, artifacts: map<string, Artifact>, createdAt: string)
    requires args.command == "update" && Accepted(args, artifacts)
    ensures var replaced := ReplaceAll(CurrentContent(artifacts[args.artifactId]), args.oldStr.value, args.newStr.value);
      var u := Run(args, artifacts, createdAt).value;
      && u.message == Element(UpdateAttrs(args.artifactId, args.oldStr.value, args.newStr.value), replaced)
      && CurrentContent(u.artifacts.value[args.artifactId]) == replaced
  {
  }

  /**
   * The update message under the same conditions, for the replaced content: one
   * artifact with command "update", the same id, no title, type or stage, and the
   * new content trimmed.
   */
  lemma UpdateRoundTrip(args: Args, artifacts: map<string, Artifact>, createdAt: string, fallback: nat -> string)
    requires args.command == "update" && Accepted(args, artifacts)
    requires AttrValue(args.artifactId) && AttrValue(args.oldStr.value) && AttrValue(args.newStr.value)
    requires var current := CurrentContent(artifacts[args.artifactId]);
      !Contains(ReplaceAll(current, args.oldStr.value, args.newStr.value), ArtifactRenderer.CloseTag)
    ensures var text := Run(args, artifacts, createdAt).value.message;
      var revised := Run(args, artifacts, createdAt).value.artifacts.value[args.artifactId];
      && ArtifactRenderer.Artifacts(text, fallback) == [ArtifactRenderer.ArtifactData(
           "update", ReadId(args.artifactId, fallback(0)), None, None, None, Trim(Js, CurrentContent(revised)))]
      && ArtifactRenderer.RemoveBlocks(text) == []
  {
    var replaced := ReplaceAll(CurrentContent(artifacts[args.artifactId]), args.oldStr.value, args.newStr.value);
    UpdateWrites(args, artifacts, createdAt);
    ReadUpdate(args.artifactId, args.oldStr.value, args.newStr.value, replaced, fallback);
  }

  /** The rewrite message: one artifact with command "rewrite", the same id and the content trimmed. */
  lemma RewriteRoundTrip(args: Args, artifacts: map<string, Artifact>, createdAt: string, fallback: nat -> string)
    requires args.command == "rewrite" && Accepted(args, artifacts) && Run(args, artifacts, createdAt).Some?
    requires AttrValue(args.artifactId) && !Contains(args.content.value, ArtifactRenderer.CloseTag)
    ensures var text := Run(args, artifacts, createdAt).value.message;
      && ArtifactRenderer.Artifacts(text, fallback) == [ArtifactRenderer.ArtifactData(
           "rewrite", ReadId(args.artifactId, fallback(0)), None, None, None, Trim(Js, args.content.value))]
      && ArtifactRenderer.RemoveBlocks(text) == []
  {
    ReadRewrite(args.artifactId, args.content.value, fallback);
  }
}
