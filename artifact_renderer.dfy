/**
 * The UI's artifact extractor (ArtifactRenderer). The block pattern
 * `<artifact\s+([^>]+)>([\s\S]*?)<\/artifact>` and the attribute pattern
 * `(\w+)="([^"]*)"` are written out as scanners: a spec function that tries a
 * match at the start of the remaining text and otherwise skips one character
 * (exactly what a global regular expression does from `lastIndex`), and a
 * method whose loop runs the same scan over an index.
 */
module ArtifactRenderer {
  import opened Wrappers
  import opened Text

  const OpenTag: string := "<artifact"
  const CloseTag: string := "</artifact>"

  /**
   * One match of the block pattern at the start of a string: `head` is everything
   * between `<artifact` and the first `>`, `attrs` is the part captured by `[^>]+`
   * (the head less its leading white space, but never empty), `body` the text up to
   * the nearest `</artifact>`, and `length` the length of the whole match.
   */
  datatype BlockMatch = BlockMatch(head: string, attrs: string, body: string, length: nat)

  /** The text a block match spans. */
  function BlockText(b: BlockMatch): string {
    OpenTag + b.head + ">" + b.body + CloseTag
  }

  predicate NoGt(s: string) {
    forall i :: 0 <= i < |s| ==> s[i] != '>'
  }

  /** No closing tag starts inside `body`: the block ends at the nearest `</artifact>` (no nesting). */
  predicate NoEarlierClose(body: string) {
    forall j :: 0 <= j < |body| ==> !OccursAt(body + CloseTag, CloseTag, j)
  }

  /** What every match looks like: the regular expression, stated as a property of the match. */
  predicate WellFormedBlock(b: BlockMatch) {
    && b.length == |BlockText(b)|
    && |b.head| >= 2 && IsSpace(Js, b.head[0]) && NoGt(b.head)
    && 1 <= |b.attrs| <= |b.head| - 1
    && b.attrs == b.head[|b.head| - |b.attrs|..]
    && AllSpace(Js, b.head[..|b.head| - |b.attrs|])
    && (|b.attrs| == 1 || !IsSpace(Js, b.attrs[0]))
    && NoEarlierClose(b.body)
  }

  /** Where `\s+` stops and the `[^>]+` capture begins: all leading white space but the last character. */
  function AttrStart(head: string): (k: nat)
    requires |head| >= 2 && IsSpace(Js, head[0])
    ensures 1 <= k <= |head| - 1
  {
    var lead := |head| - |TrimLeft(Js, head)|;
    if lead < |head| then lead else |head| - 1
  }

  /**
   * The block pattern tried at the start of `s`: `<artifact` and a white-space
   * character, then the scan for the first `>` and the first `</artifact>` after it.
   */
  function MatchBlock(s: string): (m: Option<BlockMatch>)
    ensures m.Some? ==> |OpenTag| < m.value.length <= |s|
  {
    if StartsWith(s, OpenTag) && |OpenTag| < |s| && IsSpace(Js, s[|OpenTag|]) then ScanHead(s, |OpenTag| + 1)
    else None
  }

  /** Looking for the `>` that ends the head `s[|OpenTag|..i]`; `[^>]+` needs two head characters in all. */
  function ScanHead(s: string, i: nat): (m: Option<BlockMatch>)
    requires |OpenTag| < i <= |s| && IsSpace(Js, s[|OpenTag|])
    ensures m.Some? ==> i < m.value.length <= |s|
    decreases |s| - i
  {
    if i == |s| then None
    else if s[i] == '>' then (if i < |OpenTag| + 2 then None else ScanBody(s, i, i + 1))
    else ScanHead(s, i + 1)
  }

  /** Looking for the first `</artifact>` at or after `j`; the `>` of the head is at `g`. */
  function ScanBody(s: string, g: nat, j: nat): (m: Option<BlockMatch>)
    requires |OpenTag| + 2 <= g < j <= |s| && IsSpace(Js, s[|OpenTag|])
    ensures m.Some? ==> j < m.value.length <= |s|
    decreases |s| - j
  {
    if j + |CloseTag| > |s| then None
    else if s[j..j + |CloseTag|] == CloseTag then Some(MakeBlock(s, g, j))
    else ScanBody(s, g, j + 1)
  }

  /** The match whose head ends at `g` and whose close tag starts at `c`. */
  function MakeBlock(s: string, g: nat, c: nat): (b: BlockMatch)
    requires |OpenTag| + 2 <= g < c && c + |CloseTag| <= |s| && IsSpace(Js, s[|OpenTag|])
    ensures b.length == c + |CloseTag|
  {
    var head := s[|OpenTag|..g];
    BlockMatch(head, head[AttrStart(head)..], s[g + 1..c], c + |CloseTag|)
  }

  /** What the scan makes of the first `>` at `f`: no match, or the body scan after it when the head is long enough. */
  function AfterHead(s: string, f: Option<nat>): Option<BlockMatch>
    requires |OpenTag| < |s| && IsSpace(Js, s[|OpenTag|]) && (f.Some? ==> f.value < |s|)
  {
    if f.None? || f.value < |OpenTag| + 2 then None else ScanBody(s, f.value, f.value + 1)
  }

  /** The head scan finds the first `>` from `i`, as `FindFrom` does. */
  lemma {:induction false} ScanHeadIsFind(s: string, i: nat)
    requires |OpenTag| < i <= |s| && IsSpace(Js, s[|OpenTag|])
    ensures ScanHead(s, i) == AfterHead(s, FindFrom(s, ">", i))
    decreases |s| - i
  {
    if i < |s| {
      FindGtStep(s, i);
      if s[i] != '>' {
        ScanHeadIsFind(s, i + 1);
      }
    }
  }

  /** One step of the search for `>`. */
  lemma FindGtStep(s: string, i: nat)
    requires i < |s|
    ensures FindFrom(s, ">", i) == if s[i] == '>' then Some(i) else FindFrom(s, ">", i + 1)
  {
    assert s[i..i + 1] == [s[i]];
  }

  /** The body scan finds the first close tag from `j`, as `FindFrom` does. */
  lemma {:induction false} ScanBodyIsFind(s: string, g: nat, j: nat)
    requires |OpenTag| + 2 <= g < j <= |s| && IsSpace(Js, s[|OpenTag|])
    ensures ScanBody(s, g, j) == match FindFrom(s, CloseTag, j)
      case None => None
      case Some(c) => Some(MakeBlock(s, g, c))
    decreases |s| - j
  {
    if j + |CloseTag| <= |s| && s[j..j + |CloseTag|] != CloseTag {
      ScanBodyIsFind(s, g, j + 1);
    }
  }

  lemma GtIsNotSpace()
    ensures !IsSpace(Js, '>')
  {
  }

  /** Every match the scanner reports is a well-formed block and spells the text it covers. */
  lemma MatchBlockSound(s: string)
    requires MatchBlock(s).Some?
    ensures s[..MatchBlock(s).value.length] == BlockText(MatchBlock(s).value)
    ensures WellFormedBlock(MatchBlock(s).value)
  {
    var g, c := MatchBlockFound(s);
    BlockParts(s, g, c);
  }

  /** A reported match is assembled from the first `>` after the open tag and the first close tag after that. */
  lemma MatchBlockFound(s: string) returns (g: nat, c: nat)
    requires MatchBlock(s).Some?
    ensures |OpenTag| + 2 <= g < c && c + |CloseTag| <= |s|
    ensures StartsWith(s, OpenTag) && IsSpace(Js, s[|OpenTag|])
    ensures OccursAt(s, ">", g) && forall j :: |OpenTag| + 1 <= j < g ==> !OccursAt(s, ">", j)
    ensures OccursAt(s, CloseTag, c) && forall j :: g + 1 <= j < c ==> !OccursAt(s, CloseTag, j)
    ensures MatchBlock(s) == Some(MakeBlock(s, g, c))
  {
    g := HeadScanned(s);
    c := BodyScanned(s, g);
  }

  /** A reported match has its head end at the first `>` after the open tag. */
  lemma HeadScanned(s: string) returns (g: nat)
    requires MatchBlock(s).Some?
    ensures |OpenTag| + 2 <= g < |s|
    ensures StartsWith(s, OpenTag) && IsSpace(Js, s[|OpenTag|])
    ensures OccursAt(s, ">", g) && forall j :: |OpenTag| + 1 <= j < g ==> !OccursAt(s, ">", j)
    ensures MatchBlock(s) == ScanBody(s, g, g + 1)
  {
    var n := |OpenTag|;
    assert MatchBlock(s) == ScanHead(s, n + 1);
    ScanHeadIsFind(s, n + 1);
    g := FindFrom(s, ">", n + 1).value;
    FindFromSpec(s, ">", n + 1);
  }

  /** A reported body scan ends at the first close tag after the head. */
  lemma BodyScanned(s: string, g: nat) returns (c: nat)
    requires |OpenTag| + 2 <= g < |s| && IsSpace(Js, s[|OpenTag|]) && ScanBody(s, g, g + 1).Some?
    ensures g < c && c + |CloseTag| <= |s|
    ensures OccursAt(s, CloseTag, c) && forall j :: g + 1 <= j < c ==> !OccursAt(s, CloseTag, j)
    ensures ScanBody(s, g, g + 1) == Some(MakeBlock(s, g, c))
  {
    ScanBodyIsFind(s, g, g + 1);
    c := FindFrom(s, CloseTag, g + 1).value;
    FindFromSpec(s, CloseTag, g + 1);
  }

  /** The block assembled from the first `>` at `g` and the first close tag at `c` after it. */
  lemma BlockParts(s: string, g: nat, c: nat)
    requires |OpenTag| + 2 <= g < c && c + |CloseTag| <= |s|
    requires StartsWith(s, OpenTag) && IsSpace(Js, s[|OpenTag|])
    requires OccursAt(s, ">", g) && forall j :: |OpenTag| + 1 <= j < g ==> !OccursAt(s, ">", j)
    requires OccursAt(s, CloseTag, c) && forall j :: g + 1 <= j < c ==> !OccursAt(s, CloseTag, j)
    ensures s[..c + |CloseTag|] == BlockText(MakeBlock(s, g, c))
    ensures WellFormedBlock(MakeBlock(s, g, c))
  {
    HeadHasNoGt(s, g);
    BodyFirstClose(s, g + 1, c);
    PartsWellFormed(s[|OpenTag|..g], s[g + 1..c]);
    BlockSpelling(s, g, c);
  }

  lemma HeadHasNoGt(s: string, g: nat)
    requires |OpenTag| < g <= |s| && IsSpace(Js, s[|OpenTag|])
    requires forall j :: |OpenTag| + 1 <= j < g ==> !OccursAt(s, ">", j)
    ensures NoGt(s[|OpenTag|..g])
  {
    var n := |OpenTag|;
    GtIsNotSpace();
    var head := s[n..g];
    forall i | 0 <= i < |head| ensures head[i] != '>' {
      if i > 0 {
        assert !OccursAt(s, ">", n + i);
        assert s[n + i..n + i + 1] == [head[i]];
      }
    }
  }

  lemma BlockSpelling(s: string, g: nat, c: nat)
    requires |OpenTag| < g < c && c + |CloseTag| <= |s|
    requires StartsWith(s, OpenTag) && OccursAt(s, ">", g) && OccursAt(s, CloseTag, c)
    ensures s[..c + |CloseTag|] == OpenTag + s[|OpenTag|..g] + ">" + s[g + 1..c] + CloseTag
  {
    var n := |OpenTag|;
    assert s[..n] == OpenTag;
    assert s[..c + |CloseTag|] == s[..n] + s[n..g] + s[g..g + 1] + s[g + 1..c] + s[c..c + |CloseTag|];
  }

  /** The capture is determined by the head: white space before it, and it starts with a non-space unless it is one character. */
  lemma AttrStartUnique(head: string, k: nat)
    requires |head| >= 2 && IsSpace(Js, head[0])
    requires 1 <= k <= |head| - 1 && AllSpace(Js, head[..k])
    requires |head| - k == 1 || !IsSpace(Js, head[k])
    ensures AttrStart(head) == k
  {
    assert head == head[..k] + head[k..];
    TrimLeftSkip(Js, head[..k], head[k..]);
    if !IsSpace(Js, head[k]) {
      assert TrimLeft(Js, head[k..]) == head[k..];
    } else {
      assert head[k..][1..] == [];
      assert TrimLeft(Js, head[k..]) == TrimLeft(Js, []);
    }
  }

  /** The scanner finds every well-formed block that a string starts with: the converse of `MatchBlockSound`. */
  lemma MatchBlockComplete(s: string, b: BlockMatch)
    requires WellFormedBlock(b) && StartsWith(s, BlockText(b))
    ensures MatchBlock(s) == Some(b)
  {
    BlockTextSlices(s, b);
    MatchBlockParts(s, b);
  }

  /** `MatchBlockComplete` on the pieces of the string. */
  lemma MatchBlockParts(s: string, b: BlockMatch)
    requires WellFormedBlock(b)
    requires var g := |OpenTag| + |b.head|;
      && StartsWith(s, OpenTag) && g < |s| && s[|OpenTag|..g] == b.head && s[g] == '>'
      && g + 1 + |b.body| + |CloseTag| <= |s|
      && s[g + 1..g + 1 + |b.body| + |CloseTag|] == b.body + CloseTag
    ensures MatchBlock(s) == Some(b)
  {
    AttrStartUnique(b.head, |b.head| - |b.attrs|);
    MatchBlockOfPieces(s, b);
  }

  /** `MatchBlockParts` with the well-formedness of the block spelled out. */
  lemma MatchBlockOfPieces(s: string, b: BlockMatch)
    requires |b.head| >= 2 && IsSpace(Js, b.head[0]) && NoGt(b.head) && NoEarlierClose(b.body)
    requires AttrStart(b.head) == |b.head| - |b.attrs| && b.attrs == b.head[|b.head| - |b.attrs|..]
    requires b.length == |OpenTag| + |b.head| + 1 + |b.body| + |CloseTag|
    requires var g := |OpenTag| + |b.head|;
      && StartsWith(s, OpenTag) && g < |s| && s[|OpenTag|..g] == b.head && s[g] == '>'
      && g + 1 + |b.body| + |CloseTag| <= |s|
      && s[g + 1..g + 1 + |b.body| + |CloseTag|] == b.body + CloseTag
    ensures MatchBlock(s) == Some(b)
  {
    var g := |OpenTag| + |b.head|;
    var c := g + 1 + |b.body|;
    MatchBlockAt(s, b.head, b.body);
    assert s[g + 1..c] == (b.body + CloseTag)[..|b.body|] == b.body;
    MakeBlockIs(s, g, c, b);
  }

  /** The block assembled from a string is the one whose pieces it holds. */
  lemma MakeBlockIs(s: string, g: nat, c: nat, b: BlockMatch)
    requires |OpenTag| + 2 <= g < c && c + |CloseTag| <= |s| && IsSpace(Js, s[|OpenTag|])
    requires s[|OpenTag|..g] == b.head && s[g + 1..c] == b.body && b.length == c + |CloseTag|
    requires AttrStart(b.head) == |b.head| - |b.attrs| && b.attrs == b.head[|b.head| - |b.attrs|..]
    ensures MakeBlock(s, g, c) == b
  {
  }

  /** A string laid out as `<artifact`, a head, `>`, a body and a close tag is matched with those parts. */
  lemma MatchBlockAt(s: string, head: string, body: string)
    requires |head| >= 2 && IsSpace(Js, head[0]) && NoGt(head) && NoEarlierClose(body)
    requires StartsWith(s, OpenTag) && |OpenTag| + |head| < |s|
    requires s[|OpenTag|..|OpenTag| + |head|] == head && s[|OpenTag| + |head|] == '>'
    requires |OpenTag| + |head| + 1 + |body| + |CloseTag| <= |s|
    requires s[|OpenTag| + |head| + 1..|OpenTag| + |head| + 1 + |body| + |CloseTag|] == body + CloseTag
    ensures MatchBlock(s) == Some(MakeBlock(s, |OpenTag| + |head|, |OpenTag| + |head| + 1 + |body|))
  {
    var n := |OpenTag|;
    var g := n + |head|;
    assert s[n] == head[0];
    HeadFound(s, head);
    BodyFound(s, g + 1, body);
    MatchBlockFinds(s, g, g + 1 + |body|);
  }

  /** With the first `>` at `g` and the first close tag after it at `c`, the scanner reports the block they delimit. */
  lemma MatchBlockFinds(s: string, g: nat, c: nat)
    requires StartsWith(s, OpenTag) && |OpenTag| + 2 <= g < |s| && IsSpace(Js, s[|OpenTag|])
    requires FindFrom(s, ">", |OpenTag| + 1) == Some(g) && FindFrom(s, CloseTag, g + 1) == Some(c)
    ensures g < c && c + |CloseTag| <= |s| && MatchBlock(s) == Some(MakeBlock(s, g, c))
  {
    assert MatchBlock(s) == ScanHead(s, |OpenTag| + 1);
    ScanHeadAt(s, |OpenTag| + 1, g);
    ScanBodyAt(s, g, g + 1, c);
  }

  /** The head scan from `i` hands over to the body scan at the first `>`. */
  lemma ScanHeadAt(s: string, i: nat, g: nat)
    requires |OpenTag| < i <= |s| && IsSpace(Js, s[|OpenTag|])
    requires FindFrom(s, ">", i) == Some(g) && |OpenTag| + 2 <= g
    ensures g < |s| && ScanHead(s, i) == ScanBody(s, g, g + 1)
  {
    ScanHeadIsFind(s, i);
  }

  /** The body scan from `j` ends at the first close tag. */
  lemma ScanBodyAt(s: string, g: nat, j: nat, c: nat)
    requires |OpenTag| + 2 <= g < j <= |s| && IsSpace(Js, s[|OpenTag|])
    requires FindFrom(s, CloseTag, j) == Some(c)
    ensures j <= c && c + |CloseTag| <= |s| && ScanBody(s, g, j) == Some(MakeBlock(s, g, c))
  {
    ScanBodyIsFind(s, g, j);
  }

  /** The pieces of a string that starts with the text of a block. */
  lemma BlockTextSlices(s: string, b: BlockMatch)
    requires StartsWith(s, BlockText(b))
    ensures var g := |OpenTag| + |b.head|;
      && StartsWith(s, OpenTag) && s[|OpenTag|..g] == b.head && g < |s| && s[g] == '>'
      && s[g + 1..g + 1 + |b.body| + |CloseTag|] == b.body + CloseTag
  {
    var n := |OpenTag|;
    var g := n + |b.head|;
    var t := BlockText(b);
    assert s[..|t|] == t;
    assert t[..n] == OpenTag;
    assert t[n..g] == b.head;
    assert t[g] == '>';
    assert t[g + 1..] == b.body + CloseTag;
  }

  lemma HeadFound(s: string, head: string)
    requires |OpenTag| + |head| < |s| && 1 <= |head| && s[|OpenTag|..|OpenTag| + |head|] == head && NoGt(head)
    requires s[|OpenTag| + |head|] == '>'
    ensures FindFrom(s, ">", |OpenTag| + 1) == Some(|OpenTag| + |head|)
  {
    var n := |OpenTag|;
    forall j | n + 1 <= j < n + |head| ensures !OccursAt(s, ">", j) {
      assert s[j] == head[j - n];
      assert s[j..j + 1] == [s[j]];
    }
    assert s[n + |head|..n + |head| + 1] == ">";
    FindFromIs(s, ">", n + 1, n + |head|);
  }

  lemma BodyFound(s: string, a: nat, body: string)
    requires a + |body| + |CloseTag| <= |s| && s[a..a + |body| + |CloseTag|] == body + CloseTag
    requires NoEarlierClose(body)
    ensures FindFrom(s, CloseTag, a) == Some(a + |body|)
  {
    var t := body + CloseTag;
    forall j | a <= j < a + |body| ensures !OccursAt(s, CloseTag, j) {
      OccursShift(s, t, a, CloseTag, j);
    }
    assert s[a + |body|..a + |body| + |CloseTag|] == t[|body|..];
    FindFromIs(s, CloseTag, a, a + |body|);
  }

  /** A close tag found first from `a` leaves the text before it free of close tags. */
  lemma BodyFirstClose(s: string, a: nat, c: nat)
    requires a <= c && OccursAt(s, CloseTag, c)
    requires forall j :: a <= j < c ==> !OccursAt(s, CloseTag, j)
    ensures NoEarlierClose(s[a..c])
  {
    var t := s[a..c] + CloseTag;
    assert t == s[a..c + |CloseTag|];
    forall j | 0 <= j < c - a ensures !OccursAt(t, CloseTag, j) {
      assert !OccursAt(s, CloseTag, a + j);
      if j + |CloseTag| <= |t| {
        OccursShift(s, t, a, CloseTag, a + j);
      }
    }
  }

  /** A head and a body of the right shape make a well-formed block. */
  lemma PartsWellFormed(head: string, body: string)
    requires |head| >= 2 && IsSpace(Js, head[0]) && NoGt(head)
    requires NoEarlierClose(body)
    ensures WellFormedBlock(BlockMatch(head, head[AttrStart(head)..], body, |OpenTag| + |head| + 1 + |body| + |CloseTag|))
  {
    AttrsShape(head, AttrStart(head));
  }

  lemma AttrsShape(head: string, k: nat)
    requires |head| >= 2 && IsSpace(Js, head[0]) && k == AttrStart(head)
    ensures head[k..] == head[|head| - |head[k..]|..]
    ensures AllSpace(Js, head[..k])
    ensures |head[k..]| == 1 || !IsSpace(Js, head[k..][0])
  {
    var t := TrimLeft(Js, head);
    var lead := |head| - |t|;
    TrimLeftShape(Js, head);
    assert k <= lead;
    forall i | 0 <= i < k ensures IsSpace(Js, head[..k][i]) {
      assert head[..k][i] == head[..lead][i];
    }
    if k == lead {
      assert head[k..] == t;
    }
  }

  /** One match of the attribute pattern `(\w+)="([^"]*)"` at the start of a string. */
  datatype AttrMatch = AttrMatch(key: string, value: string, length: nat)

  /** Length of the longest prefix of word characters (a greedy `\w+`). */
  function WordRun(s: string): (n: nat)
    ensures n <= |s|
    decreases |s|
  {
    if |s| > 0 && IsWordChar(s[0]) then 1 + WordRun(s[1..]) else 0
  }

  lemma {:induction false} WordRunSpec(s: string)
    ensures forall i :: 0 <= i < WordRun(s) ==> IsWordChar(s[i])
    ensures WordRun(s) == |s| || !IsWordChar(s[WordRun(s)])
    decreases |s|
  {
    if |s| > 0 && IsWordChar(s[0]) {
      WordRunSpec(s[1..]);
    }
  }

  /**
   * The attribute pattern tried at the start of `s`. `\w+` is greedy and `=` is not a
   * word character, so a match must take the whole leading word.
   */
  function MatchAttr(s: string): (m: Option<AttrMatch>)
    ensures m.Some? ==> 0 < m.value.length <= |s|
  {
    var w := WordRun(s);
    if w == 0 || !OccursAt(s, "=\"", w) then None
    else
      match FindFrom(s, "\"", w + 2)
      case None => None
      case Some(q) => Some(AttrMatch(s[..w], s[w + 2..q], q + 1))
  }

  predicate NoQuote(s: string) {
    forall i :: 0 <= i < |s| ==> s[i] != '"'
  }

  /** What a reported attribute match looks like. */
  predicate WellFormedAttr(s: string, a: AttrMatch) {
    && a.length <= |s|
    && s[..a.length] == a.key + "=\"" + a.value + "\""
    && |a.key| >= 1 && (forall i :: 0 <= i < |a.key| ==> IsWordChar(a.key[i]))
    && NoQuote(a.value)
  }

  lemma MatchAttrSound(s: string)
    requires MatchAttr(s).Some?
    ensures WellFormedAttr(s, MatchAttr(s).value)
  {
    var w, q := MatchAttrFound(s);
    AttrPieces(s, w, q);
  }

  /** A reported attribute match spans a leading word, `="`, and the text up to the next quote. */
  lemma MatchAttrFound(s: string) returns (w: nat, q: nat)
    requires MatchAttr(s).Some?
    ensures 1 <= w && w + 2 <= q < |s|
    ensures (forall i :: 0 <= i < w ==> IsWordChar(s[i])) && OccursAt(s, "=\"", w)
    ensures OccursAt(s, "\"", q) && forall i :: w + 2 <= i < q ==> !OccursAt(s, "\"", i)
    ensures MatchAttr(s) == Some(AttrMatch(s[..w], s[w + 2..q], q + 1))
  {
    w := WordRun(s);
    q := FindFrom(s, "\"", w + 2).value;
    WordRunSpec(s);
    FindFromSpec(s, "\"", w + 2);
  }

  /** The match assembled from those positions is well formed. */
  lemma AttrPieces(s: string, w: nat, q: nat)
    requires 1 <= w && w + 2 <= q < |s|
    requires (forall i :: 0 <= i < w ==> IsWordChar(s[i])) && OccursAt(s, "=\"", w)
    requires OccursAt(s, "\"", q) && forall i :: w + 2 <= i < q ==> !OccursAt(s, "\"", i)
    ensures WellFormedAttr(s, AttrMatch(s[..w], s[w + 2..q], q + 1))
  {
    forall i | w + 2 <= i < q ensures s[i] != '"' {
      assert !OccursAt(s, "\"", i);
    }
    assert s[w..w + 2] == "=\"";
    assert s[q..q + 1] == "\"";
    assert s[..q + 1] == s[..w] + s[w..w + 2] + s[w + 2..q] + s[q..q + 1];
  }

  /** A word with `="`, a quote-free value and `"` after it is matched exactly. */
  lemma MatchAttrComplete(key: string, value: string, rest: string)
    requires |key| >= 1 && forall i :: 0 <= i < |key| ==> IsWordChar(key[i])
    requires NoQuote(value)
    ensures MatchAttr(key + "=\"" + value + "\"" + rest) == Some(AttrMatch(key, value, |key| + 2 + |value| + 1))
  {
    var s := key + "=\"" + value + "\"" + rest;
    AttrSlices(key, value, rest);
    WordRunOfWord(key, "=\"" + value + "\"" + rest);
    MatchAttrOfParts(s, key, value);
  }

  lemma MatchAttrOfParts(s: string, key: string, value: string)
    requires |key| >= 1 && WordRun(s) == |key| && NoQuote(value)
    requires |key| + 2 + |value| < |s| && s[..|key|] == key && OccursAt(s, "=\"", |key|)
    requires s[|key| + 2..|key| + 2 + |value|] == value && s[|key| + 2 + |value|] == '"'
    ensures MatchAttr(s) == Some(AttrMatch(key, value, |key| + 2 + |value| + 1))
  {
    var w := |key|;
    var q := w + 2 + |value|;
    QuoteFound(s, w + 2, value);
    MatchAttrAt(s, w, q);
  }

  /** The pieces of a written attribute. */
  lemma AttrSlices(key: string, value: string, rest: string)
    ensures var s := key + "=\"" + value + "\"" + rest;
      var w := |key|;
      && s == key + ("=\"" + value + "\"" + rest)
      && w + 2 + |value| < |s|
      && s[..w] == key && OccursAt(s, "=\"", w)
      && s[w + 2..w + 2 + |value|] == value && s[w + 2 + |value|] == '"'
  {
    var s := key + "=\"" + value + "\"" + rest;
    var w := |key|;
    assert s[w..w + 2] == "=\"";
  }

  /** The match once the word run and the closing quote are known. */
  lemma MatchAttrAt(s: string, w: nat, q: nat)
    requires 0 < w && WordRun(s) == w && OccursAt(s, "=\"", w) && FindFrom(s, "\"", w + 2) == Some(q)
    ensures w + 2 <= q < |s| && MatchAttr(s) == Some(AttrMatch(s[..w], s[w + 2..q], q + 1))
  {
  }

  /** The closing quote of a quote-free value is the first quote after it starts. */
  lemma QuoteFound(s: string, a: nat, value: string)
    requires a + |value| < |s| && s[a..a + |value|] == value && NoQuote(value) && s[a + |value|] == '"'
    ensures FindFrom(s, "\"", a) == Some(a + |value|)
  {
    forall j | a <= j < a + |value| ensures !OccursAt(s, "\"", j) {
      assert s[j] == value[j - a];
      assert s[j..j + 1] == [s[j]];
    }
    assert s[a + |value|..a + |value| + 1] == "\"";
    FindFromIs(s, "\"", a, a + |value|);
  }

  lemma {:induction false} WordRunOfWord(w: string, rest: string)
    requires forall i :: 0 <= i < |w| ==> IsWordChar(w[i])
    requires rest == [] || !IsWordChar(rest[0])
    ensures WordRun(w + rest) == |w|
    decreases |w|
  {
    if |w| > 0 {
      assert (w + rest)[1..] == w[1..] + rest;
      WordRunOfWord(w[1..], rest);
    } else {
      assert w + rest == rest;
    }
  }

  /** The key/value pairs the attribute loop visits, left to right. */
  function AttrPairs(s: string): seq<(string, string)>
    decreases |s|
  {
    if |s| == 0 then []
    else match MatchAttr(s)
      case Some(a) => [(a.key, a.value)] + AttrPairs(s[a.length..])
      case None => AttrPairs(s[1..])
  }

  /** An attribute written as `key="value"` is read back as that pair, and the scan resumes after it. */
  lemma AttrPairsWritten(key: string, value: string, rest: string)
    requires |key| >= 1 && forall i :: 0 <= i < |key| ==> IsWordChar(key[i])
    requires NoQuote(value)
    ensures AttrPairs(key + "=\"" + value + "\"" + rest) == [(key, value)] + AttrPairs(rest)
  {
    var s := key + "=\"" + value + "\"" + rest;
    MatchAttrComplete(key, value, rest);
    assert s[|key| + 2 + |value| + 1..] == rest;
  }

  /** A separating space is skipped by the attribute scan. */
  lemma AttrPairsSpace(rest: string)
    ensures AttrPairs(" " + rest) == AttrPairs(rest)
  {
    var s := " " + rest;
    assert WordRun(s) == 0;
    assert s[1..] == rest;
  }

  /** `attributes[k] = v` for each pair in turn, starting from `m`. */
  function Assign(m: map<string, string>, pairs: seq<(string, string)>): map<string, string>
    decreases |pairs|
  {
    if |pairs| == 0 then m else Assign(m[pairs[0].0 := pairs[0].1], pairs[1..])
  }

  /** The attribute record of an attribute string. */
  function Attributes(s: string): map<string, string> {
    Assign(map[], AttrPairs(s))
  }

  /** A key is present exactly when some pair (or the start map) has it; the last pair with it wins. */
  lemma {:induction false} AssignLastWins(m: map<string, string>, pairs: seq<(string, string)>, k: string)
    ensures k in Assign(m, pairs) <==> k in m || exists i :: 0 <= i < |pairs| && pairs[i].0 == k
    ensures forall i :: 0 <= i < |pairs| && pairs[i].0 == k && (forall j :: i < j < |pairs| ==> pairs[j].0 != k)
              ==> Assign(m, pairs)[k] == pairs[i].1
    ensures (forall i :: 0 <= i < |pairs| ==> pairs[i].0 != k) && k in m ==> Assign(m, pairs)[k] == m[k]
    decreases |pairs|
  {
    if |pairs| > 0 {
      var m' := m[pairs[0].0 := pairs[0].1];
      AssignLastWins(m', pairs[1..], k);
      forall i | 0 <= i < |pairs| && pairs[i].0 == k && (forall j :: i < j < |pairs| ==> pairs[j].0 != k)
        ensures Assign(m, pairs)[k] == pairs[i].1
      {
        if i > 0 {
          assert pairs[1..][i - 1] == pairs[i];
          assert forall j :: i - 1 < j < |pairs| - 1 ==> pairs[1..][j] == pairs[j + 1];
        } else {
          assert forall j :: 0 <= j < |pairs| - 1 ==> pairs[1..][j] == pairs[j + 1];
        }
      }
      if exists i :: 0 <= i < |pairs| && pairs[i].0 == k {
        var i :| 0 <= i < |pairs| && pairs[i].0 == k;
        if i > 0 { assert pairs[1..][i - 1].0 == k; }
      }
      if exists i :: 0 <= i < |pairs| - 1 && pairs[1..][i].0 == k {
        var i :| 0 <= i < |pairs| - 1 && pairs[1..][i].0 == k;
        assert pairs[i + 1].0 == k;
      }
    }
  }

  /** One step of the attribute scan. */
  lemma AttrPairsStep(s: string)
    requires |s| > 0
    ensures MatchAttr(s).Some? ==> AttrPairs(s) == [(MatchAttr(s).value.key, MatchAttr(s).value.value)] + AttrPairs(s[MatchAttr(s).value.length..])
    ensures MatchAttr(s).None? ==> AttrPairs(s) == AttrPairs(s[1..])
  {
  }

  /** The regular-expression attribute loop of the source, over an index. */
  method ParseAttributes(s: string) returns (attributes: map<string, string>)
    ensures attributes == Attributes(s)
  {
    attributes := map[];
    var i := 0;
    while i < |s|
      invariant 0 <= i <= |s|
      invariant Assign(attributes, AttrPairs(s[i..])) == Attributes(s)
      decreases |s| - i
    {
      var m := MatchAttr(s[i..]);
      AttrPairsStep(s[i..]);
      if m.Some? {
        var pairs := AttrPairs(s[i..]);
        assert pairs[0] == (m.value.key, m.value.value) && pairs[1..] == AttrPairs(s[i..][m.value.length..]);
        attributes := attributes[m.value.key := m.value.value];
        assert s[i..][m.value.length..] == s[i + m.value.length..];
        i := i + m.value.length;
      } else {
        assert s[i..][1..] == s[i + 1..];
        i := i + 1;
      }
    }
  }

  /** The parsed form of one block (`ArtifactData`). Absent attributes are `None`. */
  datatype ArtifactData = ArtifactData(
    command: string,
    artifactId: string,
    title: Option<string>,
    artifactType: Option<string>,
    stage: Option<string>,
    content: string)

  function Lookup(attributes: map<string, string>, key: string): Option<string> {
    if key in attributes then Some(attributes[key]) else None
  }

  /** `attributes.key || fallback`: an absent or empty value falls back. */
  function OrElse(v: Option<string>, fallback: string): (r: string)
    ensures v.Some? && v.value != "" ==> r == v.value
    ensures v.None? || v.value == "" ==> r == fallback
  {
    if v.Some? && v.value != "" then v.value else fallback
  }

  /** The artifact built from one block; `fallbackId` is the `artifact_${Date.now()}` token. */
  function ToArtifact(b: BlockMatch, fallbackId: string): ArtifactData
  {
    var attributes := Attributes(b.attrs);
    ArtifactData(
      OrElse(Lookup(attributes, "command"), "create"),
      OrElse(Lookup(attributes, "artifact_id"), fallbackId),
      Lookup(attributes, "title"),
      Lookup(attributes, "type"),
      Lookup(attributes, "stage"),
      Trim(Js, b.body))
  }

  /** The input cut into the pieces the block scan sees: single characters and whole blocks. */
  datatype Token = Plain(c: char) | Block(m: BlockMatch)

  function Tokens(s: string): seq<Token>
    decreases |s|
  {
    if |s| == 0 then []
    else match MatchBlock(s)
      case Some(m) => [Block(m)] + Tokens(s[m.length..])
      case None => [Plain(s[0])] + Tokens(s[1..])
  }

  /** The text a token stands for. */
  function Spelling(t: Token): string {
    match t
    case Plain(c) => [c]
    case Block(m) => BlockText(m)
  }

  function Flatten(ts: seq<Token>): string
    decreases |ts|
  {
    if |ts| == 0 then [] else Spelling(ts[0]) + Flatten(ts[1..])
  }

  function BlockPart(t: Token): seq<BlockMatch> {
    if t.Block? then [t.m] else []
  }

  function PlainPart(t: Token): string {
    if t.Plain? then [t.c] else []
  }

  /** The blocks of the scan, in document order. */
  function BlocksOf(ts: seq<Token>): seq<BlockMatch>
    decreases |ts|
  {
    if |ts| == 0 then [] else BlockPart(ts[0]) + BlocksOf(ts[1..])
  }

  /** The text outside every block. */
  function PlainOf(ts: seq<Token>): string
    decreases |ts|
  {
    if |ts| == 0 then [] else PlainPart(ts[0]) + PlainOf(ts[1..])
  }

  /** The blocks a global search for the block pattern finds, left to right. */
  function Blocks(s: string): seq<BlockMatch> {
    BlocksOf(Tokens(s))
  }

  /** `text.replace(blockPattern, '')`: the text with every block found removed. */
  function RemoveBlocks(s: string): string {
    PlainOf(Tokens(s))
  }

  /** One step of the block scan. */
  lemma BlocksStep(s: string)
    requires |s| > 0
    ensures MatchBlock(s).Some? ==> Blocks(s) == [MatchBlock(s).value] + Blocks(s[MatchBlock(s).value.length..])
    ensures MatchBlock(s).None? ==> Blocks(s) == Blocks(s[1..])
  {
    if MatchBlock(s).Some? {
      TokensBlockStep(s);
      BlocksOfCons(Block(MatchBlock(s).value), Tokens(s[MatchBlock(s).value.length..]));
    } else {
      TokensPlainStep(s);
      BlocksOfCons(Plain(s[0]), Tokens(s[1..]));
    }
  }

  lemma BlocksOfCons(t: Token, rest: seq<Token>)
    ensures BlocksOf([t] + rest) == BlockPart(t) + BlocksOf(rest)
  {
    assert ([t] + rest)[1..] == rest;
  }

  lemma PlainOfCons(t: Token, rest: seq<Token>)
    ensures PlainOf([t] + rest) == PlainPart(t) + PlainOf(rest)
  {
    assert ([t] + rest)[1..] == rest;
  }

  /**
   * Blocks are matched left to right without overlap: the input is exactly the
   * concatenation, in order, of the characters between blocks and the blocks'
   * own text.
   */
  lemma {:induction false} TokensSpellInput(s: string)
    ensures Flatten(Tokens(s)) == s
    decreases |s|
  {
    if |s| > 0 {
      if MatchBlock(s).Some? {
        TokensSpellInput(s[MatchBlock(s).value.length..]);
        SpellBlockStep(s);
      } else {
        TokensSpellInput(s[1..]);
        SpellPlainStep(s);
      }
    }
  }

  /** A block token and the spelling of the rest spell the input. */
  lemma SpellBlockStep(s: string)
    requires |s| > 0 && MatchBlock(s).Some?
    requires Flatten(Tokens(s[MatchBlock(s).value.length..])) == s[MatchBlock(s).value.length..]
    ensures Flatten(Tokens(s)) == s
  {
    var b := MatchBlock(s).value;
    TokensBlockStep(s);
    MatchBlockSpelling(s);
    TokenSpelled(s, Block(b), Tokens(s), Tokens(s[b.length..]));
  }

  /** A plain character and the spelling of the rest spell the input. */
  lemma SpellPlainStep(s: string)
    requires |s| > 0 && MatchBlock(s).None?
    requires Flatten(Tokens(s[1..])) == s[1..]
    ensures Flatten(Tokens(s)) == s
  {
    TokensPlainStep(s);
    PlainSpelled(s, Tokens(s), Tokens(s[1..]));
  }

  /** A plain first character followed by tokens that spell the rest spells the whole string. */
  lemma PlainSpelled(s: string, ts: seq<Token>, rest: seq<Token>)
    requires |s| > 0 && ts == [Plain(s[0])] + rest && Flatten(rest) == s[1..]
    ensures Flatten(ts) == s
  {
    FlattenCons(Plain(s[0]), rest);
    assert s == [s[0]] + s[1..];
  }

  /** A first token that spells a prefix of `s`, followed by tokens that spell the rest, spells `s`. */
  lemma TokenSpelled(s: string, t: Token, ts: seq<Token>, rest: seq<Token>)
    requires |Spelling(t)| <= |s| && s[..|Spelling(t)|] == Spelling(t)
    requires ts == [t] + rest && Flatten(rest) == s[|Spelling(t)|..]
    ensures Flatten(ts) == s
  {
    FlattenCons(t, rest);
    assert ts == [t] + rest;
    PrefixJoin(s, Spelling(t), Flatten(rest), Flatten(ts));
  }

  /** A prefix of `s` followed by the rest of `s` is `s`. */
  lemma PrefixJoin(s: string, p: string, f: string, whole: string)
    requires |p| <= |s| && s[..|p|] == p && f == s[|p|..] && whole == p + f
    ensures whole == s
  {
    assert s == s[..|p|] + s[|p|..];
  }

  /** The spelling of a token sequence with a first token. */
  lemma FlattenCons(t: Token, rest: seq<Token>)
    ensures Flatten([t] + rest) == Spelling(t) + Flatten(rest)
  {
    assert ([t] + rest)[1..] == rest;
  }

  /** One step of the scan at a block. */
  lemma TokensBlockStep(s: string)
    requires |s| > 0 && MatchBlock(s).Some?
    ensures Tokens(s) == [Block(MatchBlock(s).value)] + Tokens(s[MatchBlock(s).value.length..])
  {
  }

  /** One step of the scan at a plain character. */
  lemma TokensPlainStep(s: string)
    requires |s| > 0 && MatchBlock(s).None?
    ensures Tokens(s) == [Plain(s[0])] + Tokens(s[1..])
  {
  }

  /** A block match spans the block's own text. */
  lemma MatchBlockSpelling(s: string)
    requires MatchBlock(s).Some?
    ensures s[..MatchBlock(s).value.length] == BlockText(MatchBlock(s).value)
  {
    MatchBlockSound(s);
  }

  /** Every block the scan reports is well formed. */
  lemma {:induction false} BlocksWellFormed(s: string)
    ensures forall k :: 0 <= k < |Blocks(s)| ==> WellFormedBlock(Blocks(s)[k])
    decreases |s|
  {
    if |s| > 0 {
      BlocksStep(s);
      match MatchBlock(s)
      case Some(m) =>
        MatchBlockSound(s);
        BlocksWellFormed(s[m.length..]);
      case None =>
        BlocksWellFormed(s[1..]);
    }
  }

  /** No position of the text starts a block. */
  predicate NoBlockAnywhere(s: string) {
    forall p :: 0 <= p <= |s| ==> MatchBlock(s[p..]).None?
  }

  lemma NoBlockStep(s: string)
    requires |s| > 0
    ensures NoBlockAnywhere(s) <==> MatchBlock(s).None? && NoBlockAnywhere(s[1..])
  {
    SuffixShift(s);
    assert s[0..] == s;
  }

  /** One step of block removal at a position where no block starts. */
  lemma PlainStep(s: string)
    requires |s| > 0 && MatchBlock(s).None?
    ensures RemoveBlocks(s) == [s[0]] + RemoveBlocks(s[1..])
  {
    TokensPlainStep(s);
    PlainOfCons(Plain(s[0]), Tokens(s[1..]));
  }

  /** The scan finds no block exactly when no position starts one; then removing blocks changes nothing. */
  lemma NoBlockMeansPlain(s: string)
    ensures NoBlockAnywhere(s) <==> Blocks(s) == []
    ensures NoBlockAnywhere(s) ==> RemoveBlocks(s) == s
  {
    NoBlockIffNoBlocks(s);
    if NoBlockAnywhere(s) {
      NoBlockRemovesNothing(s);
    }
  }

  lemma {:induction false} NoBlockIffNoBlocks(s: string)
    ensures NoBlockAnywhere(s) <==> Blocks(s) == []
    decreases |s|
  {
    if |s| > 0 {
      NoBlockIffNoBlocks(s[1..]);
      NoBlockStep(s);
      BlocksStep(s);
    } else {
      assert s[0..] == s;
    }
  }

  lemma {:induction false} NoBlockRemovesNothing(s: string)
    requires NoBlockAnywhere(s)
    ensures RemoveBlocks(s) == s
    decreases |s|
  {
    if |s| > 0 {
      NoBlockStep(s);
      NoBlockRemovesNothing(s[1..]);
      PlainStep(s);
      assert s == [s[0]] + s[1..];
    }
  }

  /** One step of block removal at a position where a block starts: the block leaves no text behind. */
  lemma BlockStep(s: string)
    requires MatchBlock(s).Some?
    ensures RemoveBlocks(s) == RemoveBlocks(s[MatchBlock(s).value.length..])
  {
    TokensBlockStep(s);
    PlainOfCons(Block(MatchBlock(s).value), Tokens(s[MatchBlock(s).value.length..]));
  }

  /** A text that opens with a well-formed block yields that block first, and removing blocks drops its text. */
  lemma BlockFirst(b: BlockMatch, rest: string)
    requires WellFormedBlock(b)
    ensures Blocks(BlockText(b) + rest) == [b] + Blocks(rest)
    ensures RemoveBlocks(BlockText(b) + rest) == RemoveBlocks(rest)
  {
    var s := BlockText(b) + rest;
    assert s[..|BlockText(b)|] == BlockText(b);
    MatchBlockComplete(s, b);
    BlocksStep(s);
    BlockStep(s);
    assert s[b.length..] == rest;
  }

  /** The artifacts of a text, the k-th taking the k-th fallback token. */
  function Artifacts(text: string, fallback: nat -> string): (arts: seq<ArtifactData>)
    ensures |arts| == |Blocks(text)|
  {
    ArtifactsOf(Blocks(text), fallback)
  }

  /** The artifacts of a list of blocks, the k-th taking the k-th fallback token. */
  function ArtifactsOf(bs: seq<BlockMatch>, fallback: nat -> string): (arts: seq<ArtifactData>)
    ensures |arts| == |bs|
  {
    seq(|bs|, k requires 0 <= k < |bs| => ToArtifact(bs[k], fallback(k)))
  }

  lemma ArtifactsOfSnoc(bs: seq<BlockMatch>, b: BlockMatch, fallback: nat -> string)
    ensures ArtifactsOf(bs + [b], fallback) == ArtifactsOf(bs, fallback) + [ToArtifact(b, fallback(|bs|))]
  {
  }

  /** The loop body of `parseArtifacts`: parse the attributes of one block and fill in the defaults. */
  method BuildArtifact(b: BlockMatch, fallbackId: string) returns (a: ArtifactData)
    ensures a == ToArtifact(b, fallbackId)
  {
    var attributes := ParseAttributes(b.attrs);
    a := ArtifactData(
      OrElse(Lookup(attributes, "command"), "create"),
      OrElse(Lookup(attributes, "artifact_id"), fallbackId),
      Lookup(attributes, "title"),
      Lookup(attributes, "type"),
      Lookup(attributes, "stage"),
      Trim(Js, b.body));
  }

  /**
   * `parseArtifacts`: the `while ((match = artifactRegex.exec(text)) !== null)` loop,
   * with `i` playing `lastIndex`, each match pushing one artifact.
   */
  method ParseArtifacts(text: string, fallback: nat -> string) returns (artifacts: seq<ArtifactData>)
    ensures artifacts == Artifacts(text, fallback)
  {
    artifacts := [];
    ghost var seen: seq<BlockMatch> := [];
    var i := 0;
    while i < |text|
      invariant 0 <= i <= |text|
      invariant Collected(seen, text, i)
      invariant artifacts == ArtifactsOf(seen, fallback)
      decreases |text| - i
    {
      artifacts, seen, i := ScanStep(text, fallback, artifacts, seen, i);
    }
    assert Blocks(text[i..]) == [];
  }

  /** One round of the `exec` loop: at a block, push its artifact and jump past it; otherwise move one character on. */
  method ScanStep(text: string, fallback: nat -> string, artifacts: seq<ArtifactData>, ghost seen: seq<BlockMatch>, i: nat)
    returns (artifacts': seq<ArtifactData>, ghost seen': seq<BlockMatch>, i': nat)
    requires i < |text| && Collected(seen, text, i) && artifacts == ArtifactsOf(seen, fallback)
    ensures i < i' <= |text| && Collected(seen', text, i') && artifacts' == ArtifactsOf(seen', fallback)
  {
    var m := MatchBlock(text[i..]);
    if m.Some? {
      SeenStep(text, i, seen, m.value);
      var a := BuildArtifact(m.value, fallback(|artifacts|));
      ArtifactsOfSnoc(seen, m.value, fallback);
      artifacts', seen', i' := artifacts + [a], seen + [m.value], i + m.value.length;
    } else {
      PlainStepped(text, i, seen);
      artifacts', seen', i' := artifacts, seen, i + 1;
    }
  }

  /** A block at index `i`: the blocks from `i` are it and the blocks after it. */
  lemma BlockAdvance(text: string, i: nat)
    requires i < |text| && MatchBlock(text[i..]).Some?
    ensures var k := MatchBlock(text[i..]).value.length;
      i + k <= |text| && Blocks(text[i..]) == [MatchBlock(text[i..]).value] + Blocks(text[i + k..])
  {
    BlocksStep(text[i..]);
    assert text[i..][MatchBlock(text[i..]).value.length..] == text[i + MatchBlock(text[i..]).value.length..];
  }

  /** The blocks found before `i` followed by the blocks from `i` are all the blocks. */
  predicate Collected(seen: seq<BlockMatch>, text: string, i: nat)
    requires i <= |text|
  {
    Blocks(text) == seen + Blocks(text[i..])
  }

  /** The loop invariant of `ParseArtifacts` carried past a character that starts no block. */
  lemma PlainStepped(text: string, i: nat, seen: seq<BlockMatch>)
    requires i < |text| && MatchBlock(text[i..]).None? && Collected(seen, text, i)
    ensures Collected(seen, text, i + 1)
  {
    PlainAdvance(text, i);
  }

  /** The loop invariant of `ParseArtifacts` carried past the block found at `i`. */
  lemma SeenStep(text: string, i: nat, seen: seq<BlockMatch>, b: BlockMatch)
    requires i < |text| && MatchBlock(text[i..]) == Some(b)
    requires Collected(seen, text, i)
    ensures i + b.length <= |text| && Collected(seen + [b], text, i + b.length)
  {
    BlockAdvance(text, i);
    var rest := Blocks(text[i + b.length..]);
    assert seen + ([b] + rest) == (seen + [b]) + rest;
  }

  /** No block at index `i`: the blocks from `i` are the blocks from `i + 1`. */
  lemma PlainAdvance(text: string, i: nat)
    requires i < |text| && MatchBlock(text[i..]).None?
    ensures Blocks(text[i..]) == Blocks(text[i + 1..])
  {
    BlocksStep(text[i..]);
    assert text[i..][1..] == text[i + 1..];
  }

  /** One round of the residual-text loop: remove every block, then trim. */
  function Pass(s: string): string {
    Trim(Js, RemoveBlocks(s))
  }

  /** `mainContent` after `n` rounds. */
  function Residual(s: string, n: nat): string
    decreases n
  {
    if n == 0 then s else Pass(Residual(s, n - 1))
  }

  /** The `artifacts.forEach(() => { mainContent = mainContent.replace(...).trim(); })` loop. */
  method MainContent(content: string, n: nat) returns (mainContent: string)
    ensures mainContent == Residual(content, n)
  {
    mainContent := content;
    var k := 0;
    while k < n
      invariant 0 <= k <= n
      invariant mainContent == Residual(content, k)
      decreases n - k
    {
      mainContent := Pass(mainContent);
      k := k + 1;
    }
  }

  /** What the component renders: the raw text, or the residual text and the artifact cards. */
  datatype Rendering = PlainText(text: string) | WithArtifacts(mainContent: string, artifacts: seq<ArtifactData>)

  function Render(content: string, fallback: nat -> string): Rendering {
    var arts := Artifacts(content, fallback);
    if |arts| == 0 then PlainText(content) else WithArtifacts(Residual(content, |arts|), arts)
  }

  /** Text with no block match yields no artifacts and is rendered unchanged. */
  lemma NoBlockRendersUnchanged(content: string, fallback: nat -> string)
    requires NoBlockAnywhere(content)
    ensures Artifacts(content, fallback) == []
    ensures Render(content, fallback) == PlainText(content)
  {
    NoBlockMeansPlain(content);
  }

  /** `toggleExpanded`: flip the membership of one artifact id. */
  function Toggle(expanded: set<string>, id: string): (r: set<string>)
    ensures id in r <==> id !in expanded
    ensures forall x :: x != id ==> (x in r <==> x in expanded)
  {
    if id in expanded then expanded - {id} else expanded + {id}
  }

  lemma ToggleTwice(expanded: set<string>, id: string)
    ensures Toggle(Toggle(expanded, id), id) == expanded
  {
  }

  /** The component's expanded-card state. */
  class ArtifactView {
    var expanded: set<string>

    constructor ()
      ensures expanded == {}
    {
      expanded := {};
    }

    method ToggleExpanded(id: string)
      modifies this
      ensures expanded == Toggle(old(expanded), id)
    {
      var next := expanded;
      if id in next {
        next := next - {id};
      } else {
        next := next + {id};
      }
      expanded := next;
    }
  }
}
