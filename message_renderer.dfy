/**
 * The UI's message renderer (MessageRenderer). `parseLinks` cuts a message into
 * plain text and links with the global pattern `\[([^\]]+)\]\((https?:\/\/[^\)]+)\)`;
 * `renderContent` then splits each text part at line feeds and puts a line break
 * between the lines. The pattern is written out as a scanner over an index.
 */
module MessageRenderer {
  import opened Wrappers
  import opened Text

  /** A link as the pattern captures it: the label and the URL. */
  datatype Link = Link(text: string, url: string)

  /** A match of the pattern: the index it starts at and the link. */
  datatype Hit = Hit(at: nat, link: Link)

  /** One entry of `parts`: a text slice or an anchor element. */
  datatype Part = Text(text: string) | Anchor(link: Link)

  /** The source text a link was matched from: `[label](url)`. */
  function LinkText(l: Link): string {
    "[" + l.text + "](" + l.url + ")"
  }

  function LinkLength(l: Link): nat {
    4 + |l.text| + |l.url|
  }

  predicate Lacks(s: string, c: char) {
    forall i :: 0 <= i < |s| ==> s[i] != c
  }

  /** What the pattern accepts: a non-empty label without `]`, an http(s) URL with a non-empty rest and no `)`. */
  predicate WellFormedLink(l: Link) {
    && |l.text| >= 1 && Lacks(l.text, ']')
    && ((StartsWith(l.url, "http://") && |l.url| > 7) || (StartsWith(l.url, "https://") && |l.url| > 8))
    && Lacks(l.url, ')')
  }

  /**
   * Length of the `https?:\/\/` prefix at `u` (`http`, an optional `s`, `://`),
   * or 0 when there is none; compared character by character.
   */
  function SchemeLength(s: string, u: nat): nat {
    if u + 7 <= |s| && s[u] == 'h' && s[u + 1] == 't' && s[u + 2] == 't' && s[u + 3] == 'p' then
      if u + 8 <= |s| && s[u + 4] == 's' && s[u + 5] == ':' && s[u + 6] == '/' && s[u + 7] == '/' then 8
      else if s[u + 4] == ':' && s[u + 5] == '/' && s[u + 6] == '/' then 7
      else 0
    else 0
  }

  /** The pattern tried at index `p`: `[`, then the scan for the label. */
  function MatchLink(s: string, p: nat): (m: Option<Link>)
    ensures m.Some? ==> p + LinkLength(m.value) <= |s|
  {
    if p < |s| && s[p] == '[' then ScanLabel(s, p, p + 1) else None
  }

  /** `[^\]]+\]\(`: looking for the first `]` from `j`; the label needs at least one character and `(` must follow. */
  function ScanLabel(s: string, p: nat, j: nat): (m: Option<Link>)
    requires p < j <= |s|
    ensures m.Some? ==> p + LinkLength(m.value) <= |s|
    decreases |s| - j
  {
    if j == |s| then None
    else if s[j] == ']' then (if j == p + 1 || j + 1 >= |s| || s[j + 1] != '(' then None else ScanUrl(s, p, j, j + 2))
    else ScanLabel(s, p, j + 1)
  }

  /**
   * `https?:\/\/[^\)]+\)` after the `](` at `r`: looking for the first `)` from
   * `j`; the URL there must start with the scheme and go on past it. (The
   * scheme holds no `)`, so the first `)` after it is the first after `r + 2`.)
   */
  function ScanUrl(s: string, p: nat, r: nat, j: nat): (m: Option<Link>)
    requires p + 1 < r && r + 2 <= j <= |s|
    ensures m.Some? ==> p + LinkLength(m.value) <= |s|
    decreases |s| - j
  {
    if j == |s| then None
    else if s[j] == ')' then
      (var k := SchemeLength(s, r + 2); if k == 0 || j <= r + 2 + k then None else Some(Link(s[p + 1..r], s[r + 2..j])))
    else ScanUrl(s, p, r, j + 1)
  }

  /** A label scan that succeeds stopped at the first `]` from `j`, followed by `(`, and went on to the URL. */
  lemma {:induction false} ScanLabelSome(s: string, p: nat, j: nat)
    requires p < j <= |s| && ScanLabel(s, p, j).Some?
    ensures FindFrom(s, "]", j).Some?
    ensures var r := FindFrom(s, "]", j).value;
      r != p + 1 && r + 1 < |s| && s[r + 1] == '(' && ScanLabel(s, p, j) == ScanUrl(s, p, r, r + 2)
    decreases |s| - j
  {
    assert s[j..j + 1] == [s[j]];
    if s[j] != ']' {
      ScanLabelSome(s, p, j + 1);
    }
  }

  /** The label scan from `j` hands over to the URL at the first `]` when `(` follows it. */
  lemma {:induction false} ScanLabelAt(s: string, p: nat, j: nat, r: nat)
    requires p < j <= |s| && FindFrom(s, "]", j) == Some(r)
    requires r != p + 1 && r + 1 < |s| && s[r + 1] == '('
    ensures ScanLabel(s, p, j) == ScanUrl(s, p, r, r + 2)
    decreases |s| - j
  {
    assert s[j..j + 1] == [s[j]];
    if s[j] != ']' {
      ScanLabelAt(s, p, j + 1, r);
    }
  }

  /** A URL scan that succeeds stopped at the first `)` from `j`, past the scheme. */
  lemma {:induction false} ScanUrlSome(s: string, p: nat, r: nat, j: nat)
    requires p + 1 < r && r + 2 <= j <= |s| && ScanUrl(s, p, r, j).Some?
    ensures FindFrom(s, ")", j).Some?
    ensures var e := FindFrom(s, ")", j).value;
      SchemeLength(s, r + 2) > 0 && e > r + 2 + SchemeLength(s, r + 2)
      && ScanUrl(s, p, r, j) == Some(Link(s[p + 1..r], s[r + 2..e]))
    decreases |s| - j
  {
    assert s[j..j + 1] == [s[j]];
    if s[j] != ')' {
      ScanUrlSome(s, p, r, j + 1);
    }
  }

  /** The URL scan from `j` ends at the first `)` when that is past the scheme. */
  lemma {:induction false} ScanUrlAt(s: string, p: nat, r: nat, j: nat, e: nat)
    requires p + 1 < r && r + 2 <= j <= |s| && FindFrom(s, ")", j) == Some(e)
    requires SchemeLength(s, r + 2) > 0 && e > r + 2 + SchemeLength(s, r + 2)
    ensures ScanUrl(s, p, r, j) == Some(Link(s[p + 1..r], s[r + 2..e]))
    decreases |s| - j
  {
    assert s[j..j + 1] == [s[j]];
    if s[j] != ')' {
      ScanUrlAt(s, p, r, j + 1, e);
    }
  }

  /** Where `linkRegex.exec(text)` finds its next match when `lastIndex` is `i`, and the link found there. */
  function NextLink(s: string, i: nat): (r: Option<Hit>)
    requires i <= |s|
    ensures r.Some? ==> i <= r.value.at && r.value.at + LinkLength(r.value.link) <= |s|
    decreases |s| - i
  {
    match MatchLink(s, i)
    case Some(l) => Some(Hit(i, l))
    case None => if i == |s| then None else NextLink(s, i + 1)
  }

  /** `if (match.index > lastIndex) parts.push(text.slice(lastIndex, match.index))`. */
  function Before(s: string, last: nat, p: nat): seq<Part>
    requires last <= p <= |s|
  {
    if p > last then [Text(s[last..p])] else []
  }

  /** `if (lastIndex < text.length) parts.push(text.slice(lastIndex))`. */
  function After(s: string, last: nat): seq<Part>
    requires last <= |s|
  {
    if last < |s| then [Text(s[last..])] else []
  }

  /** The parts pushed by the scan from `lastIndex == last` on. */
  function PartsFrom(s: string, last: nat): seq<Part>
    requires last <= |s|
    decreases |s| - last
  {
    var next := NextLink(s, last);
    if next.None? then After(s, last)
    else Before(s, last, next.value.at) + [Anchor(next.value.link)] + PartsFrom(s, next.value.at + LinkLength(next.value.link))
  }

  /** The value of `parseLinks(text)`. */
  function Parts(s: string): seq<Part> {
    var ps := PartsFrom(s, 0);
    if |ps| > 0 then ps else [Text(s)]
  }

  /** `parseLinks`: the `while ((match = linkRegex.exec(text)) !== null)` loop. */
  method ParseLinks(text: string) returns (parts: seq<Part>)
    ensures parts == Parts(text)
  {
    parts := [];
    var lastIndex := 0;
    var next := NextLink(text, 0);
    ghost var all := PartsFrom(text, 0);
    while next.Some?
      invariant lastIndex <= |text|
      invariant next == NextLink(text, lastIndex)
      invariant Accounted(parts, text, lastIndex, all)
      decreases |text| - lastIndex
    {
      var index, l := next.value.at, next.value.link;
      ghost var seen := parts;
      parts := PushBefore(parts, text, lastIndex, index);
      parts := parts + [Anchor(l)];
      ParseStep(text, lastIndex, index, l, seen, parts, all);
      lastIndex := index + LinkLength(l);
      next := NextLink(text, lastIndex);
    }
    ParseDone(text, lastIndex, parts, all);
    parts := PushAfter(parts, text, lastIndex);
    if |parts| == 0 {
      parts := [Text(text)];
    }
  }

  /** `if (match.index > lastIndex) parts.push(text.slice(lastIndex, match.index))`. */
  method PushBefore(parts: seq<Part>, text: string, lastIndex: nat, index: nat) returns (r: seq<Part>)
    requires lastIndex <= index <= |text|
    ensures r == parts + Before(text, lastIndex, index)
  {
    r := parts;
    if index > lastIndex {
      r := r + [Text(text[lastIndex..index])];
    }
  }

  /** `if (lastIndex < text.length) parts.push(text.slice(lastIndex))`. */
  method PushAfter(parts: seq<Part>, text: string, lastIndex: nat) returns (r: seq<Part>)
    requires lastIndex <= |text|
    ensures r == parts + After(text, lastIndex)
  {
    r := parts;
    if lastIndex < |text| {
      r := r + [Text(text[lastIndex..])];
    }
  }

  /** The parts pushed so far followed by the parts still to come from `last` are all the parts. */
  predicate Accounted(parts: seq<Part>, text: string, last: nat, all: seq<Part>)
    requires last <= |text|
  {
    parts + PartsFrom(text, last) == all
  }

  /** When the scan finds no further match, only the text after `lastIndex` is still to come. */
  lemma ParseDone(text: string, last: nat, parts: seq<Part>, all: seq<Part>)
    requires last <= |text| && NextLink(text, last).None?
    requires Accounted(parts, text, last, all)
    ensures parts + After(text, last) == all
  {
  }

  /** One round of the loop keeps `parts` followed by the parts still to come equal to all the parts. */
  lemma ParseStep(text: string, last: nat, p: nat, l: Link, seen: seq<Part>, parts: seq<Part>, all: seq<Part>)
    requires last <= |text| && NextLink(text, last).Some?
    requires NextLink(text, last).value.at == p && NextLink(text, last).value.link == l
    requires Accounted(seen, text, last, all)
    requires parts == seen + Before(text, last, p) + [Anchor(l)]
    ensures Accounted(parts, text, p + LinkLength(l), all)
  {
    PartsFromStep(text, last);
    AppendStep(seen, Before(text, last, p), Anchor(l), PartsFrom(text, p + LinkLength(l)), parts);
  }

  lemma AppendStep<T>(seen: seq<T>, b: seq<T>, x: T, rest: seq<T>, parts: seq<T>)
    requires parts == seen + b + [x]
    ensures parts + rest == seen + (b + [x] + rest)
  {
    assert (seen + b + [x]) + rest == seen + (b + [x] + rest);
  }

  /** The scan stops at the first index from `i` where the pattern matches, and reports none only when there is none. */
  lemma {:induction false} NextLinkSpec(s: string, i: nat)
    requires i <= |s|
    ensures NextLink(s, i).Some? ==> MatchLink(s, NextLink(s, i).value.at) == Some(NextLink(s, i).value.link)
    ensures NextLink(s, i).Some? ==> forall q :: i <= q < NextLink(s, i).value.at ==> MatchLink(s, q).None?
    ensures NextLink(s, i).None? ==> forall q :: i <= q <= |s| ==> MatchLink(s, q).None?
    decreases |s| - i
  {
    if MatchLink(s, i).None? && i < |s| {
      NextLinkSpec(s, i + 1);
    }
  }

  /** The link the scan reports is the pattern's match at the reported index. */
  lemma {:induction false} NextLinkHit(s: string, i: nat)
    requires i <= |s| && NextLink(s, i).Some?
    ensures MatchLink(s, NextLink(s, i).value.at) == Some(NextLink(s, i).value.link)
    decreases |s| - i
  {
    if MatchLink(s, i).None? {
      NextLinkHit(s, i + 1);
    }
  }

  /** One round of the scan: the text before the match, the anchor, and the parts after it. */
  lemma PartsFromStep(s: string, last: nat)
    requires last <= |s| && NextLink(s, last).Some?
    ensures var p, l := NextLink(s, last).value.at, NextLink(s, last).value.link;
      PartsFrom(s, last) == Before(s, last, p) + [Anchor(l)] + PartsFrom(s, p + LinkLength(l))
  {
  }

  /** A reported link is well formed and is spelled out in the text where it was found. */
  lemma MatchLinkSound(s: string, p: nat)
    requires MatchLink(s, p).Some?
    ensures OccursAt(s, LinkText(MatchLink(s, p).value), p)
    ensures WellFormedLink(MatchLink(s, p).value)
  {
    MatchLinkSpelled(s, p);
    MatchLinkWellFormed(s, p);
  }

  lemma MatchLinkSpelled(s: string, p: nat)
    requires MatchLink(s, p).Some?
    ensures OccursAt(s, LinkText(MatchLink(s, p).value), p)
  {
    var r, e := MatchLinkSome(s, p);
    LinkSpelledAt(s, p, r, e);
  }

  lemma MatchLinkWellFormed(s: string, p: nat)
    requires MatchLink(s, p).Some?
    ensures WellFormedLink(MatchLink(s, p).value)
  {
    var r, e := MatchLinkSome(s, p);
    FindFromSpec(s, "]", p + 1);
    FindFromSpec(s, ")", r + 2);
    LinkWellFormed(s, p, r, e);
  }

  /** A match at `p` ends its label at the first `]` after `p` and its URL at the first `)` after that. */
  lemma MatchLinkSome(s: string, p: nat) returns (r: nat, e: nat)
    requires MatchLink(s, p).Some?
    ensures p + 1 < r && r + 1 < |s| && r + 2 <= e < |s| && s[p] == '[' && s[r + 1] == '('
    ensures FindFrom(s, "]", p + 1) == Some(r) && FindFrom(s, ")", r + 2) == Some(e)
    ensures SchemeLength(s, r + 2) > 0 && e > r + 2 + SchemeLength(s, r + 2)
    ensures MatchLink(s, p) == Some(Link(s[p + 1..r], s[r + 2..e]))
  {
    ScanLabelSome(s, p, p + 1);
    r := FindFrom(s, "]", p + 1).value;
    ScanUrlSome(s, p, r, r + 2);
    e := FindFrom(s, ")", r + 2).value;
  }

  /** The link whose label ends at the `]` at `r` and whose URL ends at the `)` at `e` is spelled out from `p`. */
  lemma LinkSpelledAt(s: string, p: nat, r: nat, e: nat)
    requires p + 1 < r && r + 2 <= e < |s| && s[p] == '[' && s[r + 1] == '('
    requires FindFrom(s, "]", p + 1) == Some(r) && FindFrom(s, ")", r + 2) == Some(e)
    ensures OccursAt(s, LinkText(Link(s[p + 1..r], s[r + 2..e])), p)
  {
    FindFromSpec(s, "]", p + 1);
    FindFromSpec(s, ")", r + 2);
    OccursChar(s, ']', r);
    OccursChar(s, ')', e);
    LinkSpelling(s, p, r, e);
  }

  /** The link whose label ends at the first `]` at `r` and whose URL ends at the first `)` at `e` after its scheme. */
  lemma LinkWellFormed(s: string, p: nat, r: nat, e: nat)
    requires p + 1 < r && r + 2 <= e < |s|
    requires forall j :: p + 1 <= j < r ==> !OccursAt(s, "]", j)
    requires forall j :: r + 2 <= j < e ==> !OccursAt(s, ")", j)
    requires SchemeLength(s, r + 2) > 0 && e > r + 2 + SchemeLength(s, r + 2)
    ensures WellFormedLink(Link(s[p + 1..r], s[r + 2..e]))
  {
    var u := r + 2;
    var k := SchemeLength(s, u);
    LabelLacks(s, p + 1, r, ']');
    SchemeLacks(s, u, k);
    LabelLacks(s, u + k, e, ')');
    UrlParts(s, u, k, e);
  }

  /** A slice before the first occurrence of `c` lacks `c`. */
  lemma LabelLacks(s: string, a: nat, b: nat, c: char)
    requires a <= b <= |s|
    requires forall j :: a <= j < b ==> !OccursAt(s, [c], j)
    ensures Lacks(s[a..b], c)
  {
    forall i | 0 <= i < b - a ensures s[a..b][i] != c {
      assert !OccursAt(s, [c], a + i);
      assert s[a + i..a + i + 1] == [s[a + i]];
    }
  }

  lemma SchemeLacks(s: string, u: nat, k: nat)
    requires k == SchemeLength(s, u) && k > 0
    ensures Lacks(s[u..u + k], ')')
    ensures (k == 7 && s[u..u + k] == "http://") || (k == 8 && s[u..u + k] == "https://")
  {
    var w := if k == 8 then "https://" else "http://";
    forall i | 0 <= i < k ensures s[u..u + k][i] == w[i] {
      assert s[u..u + k][i] == s[u + i];
    }
    assert s[u..u + k] == w;
  }

  lemma UrlParts(s: string, u: nat, k: nat, e: nat)
    requires u + k < e <= |s|
    requires (k == 7 && s[u..u + k] == "http://") || (k == 8 && s[u..u + k] == "https://")
    requires Lacks(s[u..u + k], ')') && Lacks(s[u + k..e], ')')
    ensures (StartsWith(s[u..e], "http://") && e - u > 7) || (StartsWith(s[u..e], "https://") && e - u > 8)
    ensures Lacks(s[u..e], ')')
  {
    assert s[u..e][..k] == s[u..u + k];
    forall i | 0 <= i < e - u ensures s[u..e][i] != ')' {
      if i < k {
        assert s[u..e][i] == s[u..u + k][i];
      } else {
        assert s[u..e][i] == s[u + k..e][i - k];
      }
    }
  }

  lemma LinkSpelling(s: string, p: nat, r: nat, e: nat)
    requires p < r && r + 2 <= e < |s|
    requires s[p] == '[' && s[r] == ']' && s[r + 1] == '(' && s[e] == ')'
    ensures s[p..e + 1] == "[" + s[p + 1..r] + "](" + s[r + 2..e] + ")"
  {
    assert s[p..e + 1] == [s[p]] + s[p + 1..r] + [s[r], s[r + 1]] + s[r + 2..e] + [s[e]];
  }

  /** Every well-formed link written out at `p` is matched there with its own label and URL: the converse of `MatchLinkSound`. */
  lemma MatchLinkComplete(s: string, p: nat, l: Link)
    requires WellFormedLink(l) && OccursAt(s, LinkText(l), p)
    ensures MatchLink(s, p) == Some(l)
  {
    var r := p + 1 + |l.text|;
    LinkTextSlices(s, p, l);
    LabelFound(s, p + 1, l.text, ']');
    ScanLabelAt(s, p, p + 1, r);
    UrlFound(s, p, r, l.url);
    assert s[p + 1..r] == l.text;
  }

  /** A well-formed URL written out after the `](` at `r`, and closed by `)`, is the URL matched there. */
  lemma UrlFound(s: string, p: nat, r: nat, url: string)
    requires p + 1 < r && r + 2 + |url| < |s|
    requires (StartsWith(url, "http://") && |url| > 7) || (StartsWith(url, "https://") && |url| > 8)
    requires Lacks(url, ')')
    requires s[r + 2..r + 2 + |url|] == url && s[r + 2 + |url|] == ')'
    ensures ScanUrl(s, p, r, r + 2) == Some(Link(s[p + 1..r], url))
  {
    var k := SchemeOf(s, r + 2, url);
    LabelFound(s, r + 2, url, ')');
    ScanUrlAt(s, p, r, r + 2, r + 2 + |url|);
  }

  /** The scheme length the pattern sees at `u` when a well-formed URL is written there. */
  lemma SchemeOf(s: string, u: nat, url: string) returns (k: nat)
    requires u + |url| <= |s| && s[u..u + |url|] == url
    requires (StartsWith(url, "http://") && |url| > 7) || (StartsWith(url, "https://") && |url| > 8)
    ensures k == SchemeLength(s, u) && 0 < k < |url|
  {
    k := if StartsWith(url, "https://") then 8 else 7;
    var w := if k == 8 then "https://" else "http://";
    assert url[..k] == w;
    forall i | 0 <= i < k ensures s[u + i] == w[i] {
      assert s[u + i] == s[u..u + |url|][i] == url[..k][i];
    }
    assert s[u] == w[0] && s[u + 1] == w[1] && s[u + 2] == w[2] && s[u + 3] == w[3];
    assert s[u + 4] == w[4] && s[u + 5] == w[5] && s[u + 6] == w[6];
    if k == 8 {
      assert s[u + 7] == w[7];
      assert w == "https://" && w[0] == 'h' && w[4] == 's' && w[5] == ':';
    } else {
      assert w == "http://" && w[0] == 'h' && w[4] == ':';
    }
  }

  lemma LinkTextSlices(s: string, p: nat, l: Link)
    requires OccursAt(s, LinkText(l), p)
    ensures var r := p + 1 + |l.text|;
      && s[p] == '[' && s[p + 1..r] == l.text && s[r] == ']' && s[r + 1] == '('
      && s[r + 2..r + 2 + |l.url|] == l.url && s[r + 2 + |l.url|] == ')'
  {
    var n := |l.text|;
    OccursSplit(s, "[" + l.text + "](" + l.url, ")", p);
    OccursSplit(s, "[" + l.text + "](", l.url, p);
    OccursSplit(s, "[" + l.text, "](", p);
    OccursSplit(s, "[", l.text, p);
    OccursSplit(s, "]", "(", p + 1 + n);
    OccursChar(s, '[', p);
    OccursChar(s, ']', p + 1 + n);
    OccursChar(s, '(', p + 2 + n);
    OccursChar(s, ')', p + 3 + n + |l.url|);
  }

  /** The first `c` after a non-empty slice without `c` ends it. */
  lemma LabelFound(s: string, a: nat, w: string, c: char)
    requires a + |w| < |s| && s[a..a + |w|] == w && Lacks(w, c) && s[a + |w|] == c
    ensures FindFrom(s, [c], a) == Some(a + |w|)
  {
    forall j | a <= j < a + |w| ensures !OccursAt(s, [c], j) {
      assert s[j] == w[j - a];
      assert s[j..j + 1] == [s[j]];
    }
    assert s[a + |w|..a + |w| + 1] == [c];
    FindFromIs(s, [c], a, a + |w|);
  }

  /** The text a part stands for: a text slice as it is, a link as `[label](url)`. */
  function Spelling(part: Part): string {
    match part
    case Text(t) => t
    case Anchor(l) => LinkText(l)
  }

  function Concat(ps: seq<Part>): string
    decreases |ps|
  {
    if |ps| == 0 then [] else Spelling(ps[0]) + Concat(ps[1..])
  }

  lemma {:induction false} ConcatAppend(a: seq<Part>, b: seq<Part>)
    ensures Concat(a + b) == Concat(a) + Concat(b)
    decreases |a|
  {
    if |a| == 0 {
      assert a + b == b;
    } else {
      assert (a + b)[1..] == a[1..] + b;
      ConcatAppend(a[1..], b);
    }
  }

  lemma ConcatOne(part: Part)
    ensures Concat([part]) == Spelling(part)
  {
    assert [part][1..] == [];
  }

  /** The parts from `last` on spell out exactly the rest of the text. */
  lemma {:induction false} PartsFromSpell(s: string, last: nat)
    requires last <= |s|
    ensures Concat(PartsFrom(s, last)) == s[last..]
    decreases |s| - last
  {
    if NextLink(s, last).None? {
      SpellAfter(s, last);
    } else {
      var p, l := NextLink(s, last).value.at, NextLink(s, last).value.link;
      PartsFromSpell(s, p + LinkLength(l));
      SpellSome(s, last);
    }
  }

  lemma SpellSome(s: string, last: nat)
    requires last <= |s| && NextLink(s, last).Some?
    requires var h := NextLink(s, last).value; Concat(PartsFrom(s, h.at + LinkLength(h.link))) == s[h.at + LinkLength(h.link)..]
    ensures Concat(PartsFrom(s, last)) == s[last..]
  {
    var h := NextLink(s, last).value;
    PartsFromStep(s, last);
    SpellStep(s, last, PartsFrom(s, h.at + LinkLength(h.link)));
  }

  lemma NextLinkSpelled(s: string, last: nat)
    requires last <= |s| && NextLink(s, last).Some?
    ensures OccursAt(s, LinkText(NextLink(s, last).value.link), NextLink(s, last).value.at)
  {
    NextLinkHit(s, last);
    MatchLinkSpelled(s, NextLink(s, last).value.at);
  }

  lemma SpellAfter(s: string, last: nat)
    requires last <= |s|
    ensures Concat(After(s, last)) == s[last..]
  {
    if last < |s| {
      ConcatOne(Text(s[last..]));
    }
  }

  lemma SpellStep(s: string, last: nat, rest: seq<Part>)
    requires last <= |s| && NextLink(s, last).Some?
    requires var h := NextLink(s, last).value; Concat(rest) == s[h.at + LinkLength(h.link)..]
    ensures var h := NextLink(s, last).value; Concat(Before(s, last, h.at) + [Anchor(h.link)] + rest) == s[last..]
  {
    var h := NextLink(s, last).value;
    NextLinkSpelled(s, last);
    SpellJoin(s, last, h.at, h.link, rest);
  }

  lemma SpellJoin(s: string, last: nat, p: nat, l: Link, rest: seq<Part>)
    requires last <= p && OccursAt(s, LinkText(l), p)
    requires Concat(rest) == s[p + LinkLength(l)..]
    ensures Concat(Before(s, last, p) + [Anchor(l)] + rest) == s[last..]
  {
    var b := Before(s, last, p);
    ConcatAppend(b + [Anchor(l)], rest);
    ConcatAppend(b, [Anchor(l)]);
    ConcatOne(Anchor(l));
    SpellBefore(s, last, p);
    PieceSplit(s, last, p, LinkText(l), Concat(rest));
  }

  lemma SpellBefore(s: string, last: nat, p: nat)
    requires last <= p <= |s|
    ensures Concat(Before(s, last, p)) == s[last..p]
  {
    if p > last { ConcatOne(Text(s[last..p])); }
  }

  /** The text from `a` is the slice up to `p`, the piece written at `p`, and what follows it. */
  lemma PieceSplit(s: string, a: nat, p: nat, t: string, tail: string)
    requires a <= p && OccursAt(s, t, p) && tail == s[p + |t|..]
    ensures s[a..p] + t + tail == s[a..]
  {
    SuffixSplit(s, a, p);
    SuffixSplit(s, p, p + |t|);
  }

  /**
   * Concatenating the text parts and the links' own text, in order, gives back the
   * input: matches are taken left to right and never overlap.
   */
  lemma PartsSpellInput(s: string)
    ensures Concat(Parts(s)) == s
  {
    PartsFromSpell(s, 0);
    assert s[0..] == s;
  }

  /** Every part the scan reports as a link is well formed. */
  lemma {:induction false} PartsFromLinks(s: string, last: nat)
    requires last <= |s|
    ensures forall k :: 0 <= k < |PartsFrom(s, last)| && PartsFrom(s, last)[k].Anchor? ==> WellFormedLink(PartsFrom(s, last)[k].link)
    decreases |s| - last
  {
    var next := NextLink(s, last);
    if next.Some? {
      var p, l := next.value.at, next.value.link;
      NextLinkHit(s, last);
      MatchLinkWellFormed(s, p);
      PartsFromStep(s, last);
      PartsFromLinks(s, p + LinkLength(l));
    }
  }

  lemma PartsLinksWellFormed(s: string)
    ensures forall k :: 0 <= k < |Parts(s)| && Parts(s)[k].Anchor? ==> WellFormedLink(Parts(s)[k].link)
  {
    PartsFromLinks(s, 0);
  }

  /** No text part is empty, and no two text parts are next to each other. */
  predicate Tidy(ps: seq<Part>) {
    && (forall k :: 0 <= k < |ps| && ps[k].Text? ==> ps[k].text != [])
    && (forall k :: 0 <= k < |ps| - 1 ==> !(ps[k].Text? && ps[k + 1].Text?))
  }

  lemma TidyJoin(b: seq<Part>, l: Link, r: seq<Part>)
    requires |b| <= 1 && Tidy(b) && Tidy(r)
    ensures Tidy(b + [Anchor(l)] + r)
  {
    var ps := b + [Anchor(l)] + r;
    forall k | 0 <= k < |ps| && ps[k].Text? ensures ps[k].text != [] {
      if k < |b| { assert ps[k] == b[k]; } else if k > |b| { assert ps[k] == r[k - |b| - 1]; }
    }
    forall k | 0 <= k < |ps| - 1 ensures !(ps[k].Text? && ps[k + 1].Text?) {
      if k > |b| {
        assert ps[k] == r[k - |b| - 1] && ps[k + 1] == r[k - |b|];
      }
    }
  }

  /** The parts from `last` are tidy, and there are none only when the text is used up. */
  lemma {:induction false} PartsFromTidy(s: string, last: nat)
    requires last <= |s|
    ensures Tidy(PartsFrom(s, last))
    ensures PartsFrom(s, last) == [] <==> last == |s|
    decreases |s| - last
  {
    var next := NextLink(s, last);
    if next.Some? {
      var p, l := next.value.at, next.value.link;
      PartsFromTidy(s, p + LinkLength(l));
      TidyJoin(Before(s, last, p), l, PartsFrom(s, p + LinkLength(l)));
    }
  }

  /** No emitted text part is empty, except the single `[text]` fallback for the empty message. */
  lemma PartsNoEmptyText(s: string)
    ensures s == [] ==> Parts(s) == [Text([])]
    ensures s != [] ==> Tidy(Parts(s))
  {
    PartsFromTidy(s, 0);
  }

  /** No two text parts are ever adjacent. */
  lemma PartsNoAdjacentText(s: string)
    ensures forall k :: 0 <= k < |Parts(s)| - 1 ==> !(Parts(s)[k].Text? && Parts(s)[k + 1].Text?)
  {
    PartsFromTidy(s, 0);
  }

  /** A message in which the pattern matches nowhere comes back as one part equal to the message. */
  lemma NoLinkSinglePart(s: string)
    requires forall q :: 0 <= q <= |s| ==> MatchLink(s, q).None?
    ensures Parts(s) == [Text(s)]
  {
    NextLinkSpec(s, 0);
    assert s[0..] == s;
  }

  /** One rendered line of a text part, and whether a `<br />` follows it. */
  datatype Line = Line(text: string, br: bool)

  /** `lines.map((line, i, array) => line, then <br /> when i < array.length - 1)`. */
  function RenderLines(lines: seq<string>): (r: seq<Line>)
    requires |lines| >= 1
    ensures |r| == |lines|
    decreases |lines|
  {
    if |lines| == 1 then [Line(lines[0], false)]
    else [Line(lines[0], true)] + RenderLines(lines[1..])
  }

  /** A text part as rendered: `part.split('\n')`, with a break after every line but the last. */
  function RenderText(t: string): seq<Line> {
    RenderLines(SplitOn(t, "\n"))
  }

  function Breaks(ls: seq<Line>): nat
    decreases |ls|
  {
    if |ls| == 0 then 0 else (if ls[0].br then 1 else 0) + Breaks(ls[1..])
  }

  /** What the lines display: each line, with a line feed where a `<br />` is. */
  function Shown(ls: seq<Line>): string
    decreases |ls|
  {
    if |ls| == 0 then [] else ls[0].text + (if ls[0].br then "\n" else []) + Shown(ls[1..])
  }

  lemma {:induction false} RenderLinesBreaks(lines: seq<string>)
    requires |lines| >= 1
    ensures Breaks(RenderLines(lines)) == |lines| - 1
    ensures Shown(RenderLines(lines)) == Join(lines, "\n")
    decreases |lines|
  {
    if |lines| > 1 {
      RenderLinesBreaks(lines[1..]);
      var r := RenderLines(lines);
      assert r[1..] == RenderLines(lines[1..]);
    }
  }

  /** A text part renders one line break per line feed, and displays the same text. */
  lemma RenderTextBreaks(t: string)
    ensures Breaks(RenderText(t)) == CountChar(t, '\n')
    ensures Shown(RenderText(t)) == t
  {
    RenderLinesBreaks(SplitOn(t, "\n"));
    SplitCharCount(t, '\n');
    SplitJoinIdentity(t, "\n");
  }
}
