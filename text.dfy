/**
 * String primitives the rest of the model is built on, written to match the
 * JavaScript and Python library functions the source calls: `trim()`/`strip()`,
 * `includes`/`in`, `replace`, `split`, `join`, `lower()` and slicing.
 */
module Text {
  import opened Wrappers

  /** Whose white space: JavaScript's (`trim()`, `\s`) or Python's (`str.isspace()`, `strip()`). */
  datatype Flavor = Js | Py

  /**
   * The white-space characters of each language, as inclusive code-point ranges.
   * JavaScript counts U+FEFF, Python counts the separators U+001C..U+001F and
   * U+0085; the rest is shared.
   */
  function SpaceRanges(k: Flavor): seq<(int, int)> {
    var shared := [(0x09, 0x0D), (0x20, 0x20), (0xA0, 0xA0), (0x1680, 0x1680), (0x2000, 0x200A),
                   (0x2028, 0x2029), (0x202F, 0x202F), (0x205F, 0x205F), (0x3000, 0x3000)];
    match k
    case Js => shared + [(0xFEFF, 0xFEFF)]
    case Py => shared + [(0x1C, 0x1F), (0x85, 0x85)]
  }

  predicate InRanges(n: int, ranges: seq<(int, int)>)
    decreases |ranges|
  {
    |ranges| > 0 && ((ranges[0].0 <= n <= ranges[0].1) || InRanges(n, ranges[1..]))
  }

  predicate IsSpace(k: Flavor, c: char) {
    InRanges(c as int, SpaceRanges(k))
  }

  lemma {:induction false} OutsideRanges(n: int, ranges: seq<(int, int)>)
    requires forall i :: 0 <= i < |ranges| ==> n < ranges[i].0 || ranges[i].1 < n
    ensures !InRanges(n, ranges)
    decreases |ranges|
  {
    if |ranges| > 0 {
      OutsideRanges(n, ranges[1..]);
    }
  }

  /** No visible ASCII character is white space, in either language. */
  lemma VisibleNotSpace(k: Flavor, c: char)
    requires '!' <= c <= '~'
    ensures !IsSpace(k, c)
  {
    OutsideRanges(c as int, SpaceRanges(k));
  }

  predicate AllSpace(k: Flavor, s: string) {
    forall i :: 0 <= i < |s| ==> IsSpace(k, s[i])
  }

  /** `s` with its leading white space removed. */
  function TrimLeft(k: Flavor, s: string): (r: string)
    ensures |r| <= |s|
    decreases |s|
  {
    if |s| > 0 && IsSpace(k, s[0]) then TrimLeft(k, s[1..]) else s
  }

  /** `s` with its trailing white space removed. */
  function TrimRight(k: Flavor, s: string): (r: string)
    ensures |r| <= |s|
    decreases |s|
  {
    if |s| > 0 && IsSpace(k, s[|s| - 1]) then TrimRight(k, s[..|s| - 1]) else s
  }

  /** `TrimLeft` drops exactly the longest all-white-space prefix. */
  lemma {:induction false} TrimLeftShape(k: Flavor, s: string)
    ensures TrimLeft(k, s) == s[|s| - |TrimLeft(k, s)|..]
    ensures AllSpace(k, s[..|s| - |TrimLeft(k, s)|])
    ensures TrimLeft(k, s) == [] || !IsSpace(k, TrimLeft(k, s)[0])
    decreases |s|
  {
    if |s| > 0 && IsSpace(k, s[0]) {
      TrimLeftShape(k, s[1..]);
      var n := |s| - |TrimLeft(k, s)|;
      assert s[1..][|s| - 1 - |TrimLeft(k, s)|..] == s[n..];
      forall i | 0 <= i < n ensures IsSpace(k, s[..n][i]) {
        if i > 0 { assert s[..n][i] == s[1..][..n - 1][i - 1]; }
      }
    } else {
      assert s[0..] == s;
    }
  }

  /** `TrimRight` drops exactly the longest all-white-space suffix. */
  lemma {:induction false} TrimRightShape(k: Flavor, s: string)
    ensures TrimRight(k, s) == s[..|TrimRight(k, s)|]
    ensures AllSpace(k, s[|TrimRight(k, s)|..])
    ensures TrimRight(k, s) == [] || !IsSpace(k, TrimRight(k, s)[|TrimRight(k, s)| - 1])
    decreases |s|
  {
    if |s| > 0 && IsSpace(k, s[|s| - 1]) {
      var t := s[..|s| - 1];
      TrimRightShape(k, t);
      var n := |TrimRight(k, s)|;
      assert t[..n] == s[..n];
      forall i | n <= i < |s| ensures IsSpace(k, s[i]) {
        if i < |s| - 1 { assert t[n..][i - n] == s[i]; }
      }
    } else {
      assert s[..|s|] == s;
    }
  }

  /** JavaScript `s.trim()` (k == Js) or Python `s.strip()` (k == Py). */
  function Trim(k: Flavor, s: string): (r: string)
    ensures |r| <= |s|
  {
    TrimRight(k, TrimLeft(k, s))
  }

  /** A trimmed string neither starts nor ends with white space. */
  lemma TrimEnds(k: Flavor, s: string)
    ensures Trim(k, s) == [] || (!IsSpace(k, Trim(k, s)[0]) && !IsSpace(k, Trim(k, s)[|Trim(k, s)| - 1]))
  {
    var l := TrimLeft(k, s);
    TrimLeftShape(k, s);
    TrimRightShape(k, l);
    var r := TrimRight(k, l);
    if r != [] {
      assert r[0] == l[0];
    }
  }

  /** A string is blank (falsy after trimming) exactly when it is all white space. */
  lemma TrimEmptyIffAllSpace(k: Flavor, s: string)
    ensures Trim(k, s) == [] <==> AllSpace(k, s)
  {
    var l := TrimLeft(k, s);
    TrimLeftShape(k, s);
    TrimRightShape(k, l);
    if l == [] {
      assert s[..|s|] == s;
    } else {
      assert !IsSpace(k, s[|s| - |l|]);
      assert !IsSpace(k, l[0]);
    }
  }

  lemma {:induction false} TrimLeftSkip(k: Flavor, a: string, t: string)
    requires AllSpace(k, a)
    ensures TrimLeft(k, a + t) == TrimLeft(k, t)
    decreases |a|
  {
    if |a| > 0 {
      assert (a + t)[1..] == a[1..] + t;
      TrimLeftSkip(k, a[1..], t);
    } else {
      assert a + t == t;
    }
  }

  lemma {:induction false} TrimRightSkip(k: Flavor, t: string, b: string)
    requires AllSpace(k, b)
    ensures TrimRight(k, t + b) == TrimRight(k, t)
    decreases |b|
  {
    if |b| > 0 {
      assert (t + b)[..|t + b| - 1] == t + b[..|b| - 1];
      TrimRightSkip(k, t, b[..|b| - 1]);
    } else {
      assert t + b == t;
    }
  }

  lemma {:induction false} TrimLeftAppend(k: Flavor, s: string, b: string)
    requires !AllSpace(k, s)
    ensures TrimLeft(k, s + b) == TrimLeft(k, s) + b
    decreases |s|
  {
    if IsSpace(k, s[0]) {
      assert (s + b)[1..] == s[1..] + b;
      assert !AllSpace(k, s[1..]) by {
        var i :| 0 <= i < |s| && !IsSpace(k, s[i]);
        assert s[1..][i - 1] == s[i];
      }
      TrimLeftAppend(k, s[1..], b);
    }
  }

  /** Trimming ignores white space added around a string. */
  lemma TrimPadded(k: Flavor, a: string, s: string, b: string)
    requires AllSpace(k, a) && AllSpace(k, b)
    ensures Trim(k, a + s + b) == Trim(k, s)
  {
    assert a + s + b == a + (s + b);
    TrimLeftSkip(k, a, s + b);
    if AllSpace(k, s) {
      assert AllSpace(k, s + b);
      TrimLeftSkip(k, s + b, []);
      assert s + b + [] == s + b;
      assert TrimLeft(k, s + b) == [];
      TrimLeftSkip(k, s, []);
      assert s + [] == s;
    } else {
      TrimLeftAppend(k, s, b);
      TrimRightSkip(k, TrimLeft(k, s), b);
    }
  }

  /** A string that starts and ends with a visible ASCII character is its own trim. */
  /** Stripping twice strips nothing more. */
  lemma TrimIdempotent(k: Flavor, s: string)
    ensures Trim(k, Trim(k, s)) == Trim(k, s)
  {
    TrimEnds(k, s);
  }

  lemma TrimVisibleEnds(k: Flavor, s: string)
    requires |s| > 0 && '!' <= s[0] <= '~' && '!' <= s[|s| - 1] <= '~'
    ensures Trim(k, s) == s
  {
    VisibleNotSpace(k, s[0]);
    VisibleNotSpace(k, s[|s| - 1]);
  }

  /** `s` begins with `pat` (JavaScript `startsWith`, Python `startswith`). */
  predicate StartsWith(s: string, pat: string) {
    |pat| <= |s| && s[..|pat|] == pat
  }

  /** Suffixes of `s` are suffixes of its tail, one index further on. */
  lemma SuffixShift(s: string)
    requires |s| > 0
    ensures forall j :: 1 <= j <= |s| ==> s[j..] == s[1..][j - 1..]
  {
  }

  /** `pat` occurs in `s` starting at index `i`. */
  predicate OccursAt(s: string, pat: string, i: nat) {
    i + |pat| <= |s| && s[i..i + |pat|] == pat
  }

  lemma OccursAtIsStartsWith(s: string, pat: string, i: nat)
    requires i <= |s|
    ensures OccursAt(s, pat, i) <==> StartsWith(s[i..], pat)
  {
    if i + |pat| <= |s| {
      assert s[i..][..|pat|] == s[i..i + |pat|];
    }
  }

  /** A suffix is cut in two at any index inside it. */
  lemma SuffixSplit(s: string, a: nat, b: nat)
    requires a <= b <= |s|
    ensures s[a..] == s[a..b] + s[b..]
  {
  }

  /** An occurrence of `a + b` is an occurrence of `a` followed by one of `b`. */
  lemma OccursSplit(s: string, a: string, b: string, i: nat)
    requires OccursAt(s, a + b, i)
    ensures OccursAt(s, a, i) && OccursAt(s, b, i + |a|)
  {
    var w := s[i..i + |a + b|];
    assert s[i..i + |a|] == w[..|a|];
    assert s[i + |a|..i + |a| + |b|] == w[|a|..];
  }

  /** Inside a copy of `t` placed at `a`, `pat` occurs exactly where it occurs in `t`. */
  lemma OccursShift(s: string, t: string, a: nat, pat: string, j: nat)
    requires a + |t| <= |s| && s[a..a + |t|] == t
    requires a <= j && j - a + |pat| <= |t|
    ensures OccursAt(s, pat, j) <==> OccursAt(t, pat, j - a)
  {
    SliceOfCopy(s, t, a, j - a, j - a + |pat|);
  }

  /** A slice of a copy of `t` placed at `a` is the same slice of `t`. */
  lemma SliceOfCopy(s: string, t: string, a: nat, i: nat, k: nat)
    requires a + |t| <= |s| && s[a..a + |t|] == t && i <= k <= |t|
    ensures s[a + i..a + k] == t[i..k]
  {
    forall x | 0 <= x < k - i ensures s[a + i..a + k][x] == t[i..k][x] {
      assert t[i + x] == s[a..a + |t|][i + x];
    }
  }

  lemma OccursChar(s: string, c: char, i: nat)
    ensures OccursAt(s, [c], i) <==> i < |s| && s[i] == c
  {
    if i < |s| {
      assert s[i..i + 1] == [s[i]];
    }
  }

  /** The first index `>= i` at which `pat` occurs in `s` (JavaScript `indexOf(pat, i)`). */
  function FindFrom(s: string, pat: string, i: nat): (r: Option<nat>)
    ensures r.Some? ==> i <= r.value && r.value + |pat| <= |s|
    decreases |s| - i
  {
    if i + |pat| > |s| then None
    else if s[i..i + |pat|] == pat then Some(i)
    else FindFrom(s, pat, i + 1)
  }

  /** `FindFrom` reports an occurrence, the first one from `i`, and `None` only when there is none. */
  lemma {:induction false} FindFromSpec(s: string, pat: string, i: nat)
    ensures FindFrom(s, pat, i).Some? ==> OccursAt(s, pat, FindFrom(s, pat, i).value)
    ensures FindFrom(s, pat, i).Some? ==> forall j :: i <= j < FindFrom(s, pat, i).value ==> !OccursAt(s, pat, j)
    ensures FindFrom(s, pat, i).None? ==> forall j :: i <= j ==> !OccursAt(s, pat, j)
    decreases |s| - i
  {
    if i + |pat| <= |s| && s[i..i + |pat|] != pat {
      FindFromSpec(s, pat, i + 1);
    }
  }

  /** `FindFrom` reports `k` when `pat` occurs at `k` and nowhere between `i` and `k`. */
  lemma FindFromIs(s: string, pat: string, i: nat, k: nat)
    requires i <= k && OccursAt(s, pat, k)
    requires forall j :: i <= j < k ==> !OccursAt(s, pat, j)
    ensures FindFrom(s, pat, i) == Some(k)
  {
    FindFromSpec(s, pat, i);
  }

  /** The first index at which `pat` occurs in `s` (JavaScript `indexOf`, Python `find`). */
  function IndexOf(s: string, pat: string): (r: Option<nat>)
    ensures r.Some? ==> r.value + |pat| <= |s|
  {
    FindFrom(s, pat, 0)
  }

  /** `pat in s` in Python, `s.includes(pat)` in JavaScript. */
  predicate Contains(s: string, pat: string) {
    IndexOf(s, pat).Some?
  }

  /** `pat` is contained exactly when it occurs at some index. */
  lemma ContainsIff(s: string, pat: string)
    ensures Contains(s, pat) ==> OccursAt(s, pat, IndexOf(s, pat).value)
    ensures !Contains(s, pat) ==> forall j :: !OccursAt(s, pat, j)
  {
    FindFromSpec(s, pat, 0);
  }

  lemma ContainsAt(s: string, pat: string, j: nat)
    requires OccursAt(s, pat, j)
    ensures Contains(s, pat)
  {
    FindFromSpec(s, pat, 0);
  }

  lemma ContainsAppend(s: string, t: string, pat: string)
    requires Contains(s, pat)
    ensures Contains(s + t, pat)
  {
    ContainsIff(s, pat);
    var j := IndexOf(s, pat).value;
    assert (s + t)[j..j + |pat|] == s[j..j + |pat|];
    ContainsAt(s + t, pat, j);
  }

  lemma ContainsPrepend(s: string, t: string, pat: string)
    requires Contains(t, pat)
    ensures Contains(s + t, pat)
  {
    ContainsIff(t, pat);
    var j := IndexOf(t, pat).value;
    assert (s + t)[|s| + j..|s| + j + |pat|] == t[j..j + |pat|];
    ContainsAt(s + t, pat, |s| + j);
  }

  /** Containment is transitive. */
  lemma ContainsWithin(s: string, t: string, pat: string)
    requires Contains(s, t) && Contains(t, pat)
    ensures Contains(s, pat)
  {
    ContainsIff(s, t);
    ContainsIff(t, pat);
    var i := IndexOf(s, t).value;
    var j := IndexOf(t, pat).value;
    SliceOfCopy(s, t, i, j, j + |pat|);
    ContainsAt(s, pat, i + j);
  }

  /** A pattern with a character that `s` lacks occurs nowhere in `s`. */
  lemma NowhereWithout(s: string, pat: string, c: char)
    requires c in pat && c !in s
    ensures forall j :: !OccursAt(s, pat, j)
  {
  }

  lemma ContainsTail(s: string, pat: string)
    requires |s| > 0
    ensures Contains(s[1..], pat) ==> Contains(s, pat)
  {
    if Contains(s[1..], pat) {
      ContainsIff(s[1..], pat);
      var j := IndexOf(s[1..], pat).value;
      assert s[1..][j..j + |pat|] == s[j + 1..j + 1 + |pat|];
      ContainsAt(s, pat, j + 1);
    }
  }

  /** Python `s.replace(target, repl)` for a non-empty `target`: every occurrence, scanning left to right. */
  function ReplaceAll(s: string, target: string, repl: string): string
    requires |target| > 0
    decreases |s|
  {
    if |s| == 0 then []
    else if StartsWith(s, target) then repl + ReplaceAll(s[|target|..], target, repl)
    else [s[0]] + ReplaceAll(s[1..], target, repl)
  }

  /** Python `s.split(sep)` and JavaScript `s.split(sep)` for a non-empty separator. */
  function SplitOn(s: string, sep: string): (parts: seq<string>)
    requires |sep| > 0
    ensures |parts| >= 1
    decreases |s|
  {
    if |s| == 0 then [[]]
    else if StartsWith(s, sep) then [[]] + SplitOn(s[|sep|..], sep)
    else
      var rest := SplitOn(s[1..], sep);
      [[s[0]] + rest[0]] + rest[1..]
  }

  /** A pattern with a character that `s` lacks is not contained in `s`. */
  lemma AbsentChar(s: string, pat: string, c: char)
    requires c in pat && c !in s
    ensures !Contains(s, pat)
  {
    ContainsIff(s, pat);
  }

  /** Trimming only removes characters. */
  lemma TrimChars(k: Flavor, s: string)
    ensures forall c :: c in Trim(k, s) ==> c in s
  {
    TrimLeftShape(k, s);
    var l := TrimLeft(k, s);
    TrimRightShape(k, l);
    forall c | c in Trim(k, s) ensures c in s {
      var i :| 0 <= i < |Trim(k, s)| && Trim(k, s)[i] == c;
      assert l[i] == c;
      assert s[|s| - |l| + i] == c;
    }
  }

  /** Python `sep.join(parts)`, JavaScript `parts.join(sep)`. */
  function Join(parts: seq<string>, sep: string): string
    decreases |parts|
  {
    if |parts| == 0 then []
    else if |parts| == 1 then parts[0]
    else parts[0] + sep + Join(parts[1..], sep)
  }

  lemma JoinConsHead(a: string, b: string, rest: seq<string>, sep: string)
    ensures Join([a + b] + rest, sep) == a + Join([b] + rest, sep)
  {
    if |rest| > 0 {
      assert ([a + b] + rest)[1..] == rest;
      assert ([b] + rest)[1..] == rest;
    }
  }

  /** Every part shows in the joined text. */
  lemma {:induction false} JoinShowsParts(parts: seq<string>, sep: string)
    ensures forall i :: 0 <= i < |parts| ==> Contains(Join(parts, sep), parts[i])
    decreases |parts|
  {
    if |parts| > 0 {
      var first := parts[0];
      assert OccursAt(first, first, 0);
      ContainsAt(first, first, 0);
      if |parts| > 1 {
        var rest := Join(parts[1..], sep);
        JoinShowsParts(parts[1..], sep);
        assert Join(parts, sep) == first + (sep + rest);
        ContainsAppend(first, sep + rest, first);
        forall i | 1 <= i < |parts| ensures Contains(Join(parts, sep), parts[i]) {
          assert parts[i] == parts[1..][i - 1];
          ContainsPrepend(first + sep, rest, parts[i]);
          assert Join(parts, sep) == (first + sep) + rest;
        }
      }
    }
  }

  /** Replacing is splitting on `target` and joining with `repl`: an independent statement of the scan. */
  lemma {:induction false} ReplaceAllIsSplitJoin(s: string, target: string, repl: string)
    requires |target| > 0
    ensures ReplaceAll(s, target, repl) == Join(SplitOn(s, target), repl)
    decreases |s|
  {
    if |s| == 0 {
    } else if StartsWith(s, target) {
      ReplaceAllIsSplitJoin(s[|target|..], target, repl);
      var rest := SplitOn(s[|target|..], target);
      assert ([[]] + rest)[1..] == rest;
      assert [] + repl + Join(rest, repl) == repl + Join(rest, repl);
    } else {
      ReplaceAllIsSplitJoin(s[1..], target, repl);
      var rest := SplitOn(s[1..], target);
      assert [rest[0]] + rest[1..] == rest;
      JoinConsHead([s[0]], rest[0], rest[1..], repl);
    }
  }

  /** A string without `target` is left alone by the replacement. */
  lemma {:induction false} ReplaceAllAbsent(s: string, target: string, repl: string)
    requires |target| > 0 && !Contains(s, target)
    ensures ReplaceAll(s, target, repl) == s
    decreases |s|
  {
    if |s| > 0 {
      ContainsIff(s, target);
      assert !OccursAt(s, target, 0);
      ContainsTail(s, target);
      ReplaceAllAbsent(s[1..], target, repl);
    }
  }

  /** Splitting and rejoining with the same separator gives the string back. */
  lemma {:induction false} SplitJoinIdentity(s: string, sep: string)
    requires |sep| > 0
    ensures Join(SplitOn(s, sep), sep) == s
    decreases |s|
  {
    if |s| == 0 {
    } else if StartsWith(s, sep) {
      SplitJoinAtSep(s, sep);
      SplitJoinIdentity(s[|sep|..], sep);
      assert s == sep + s[|sep|..];
    } else {
      SplitJoinAtChar(s, sep);
      SplitJoinIdentity(s[1..], sep);
      assert s == [s[0]] + s[1..];
    }
  }

  /** Rejoining the pieces of a string that starts with the separator. */
  lemma SplitJoinAtSep(s: string, sep: string)
    requires |sep| > 0 && |s| > 0 && StartsWith(s, sep)
    ensures Join(SplitOn(s, sep), sep) == sep + Join(SplitOn(s[|sep|..], sep), sep)
  {
    var rest := SplitOn(s[|sep|..], sep);
    assert ([[]] + rest)[1..] == rest;
  }

  /** Rejoining the pieces of a string that does not start with the separator. */
  lemma SplitJoinAtChar(s: string, sep: string)
    requires |sep| > 0 && |s| > 0 && !StartsWith(s, sep)
    ensures Join(SplitOn(s, sep), sep) == [s[0]] + Join(SplitOn(s[1..], sep), sep)
  {
    var rest := SplitOn(s[1..], sep);
    assert [rest[0]] + rest[1..] == rest;
    JoinConsHead([s[0]], rest[0], rest[1..], sep);
  }

  /** Number of occurrences of the character `c` in `s`. */
  function CountChar(s: string, c: char): nat
    decreases |s|
  {
    if |s| == 0 then 0 else (if s[0] == c then 1 else 0) + CountChar(s[1..], c)
  }

  /** Splitting on one character yields one more piece than there are occurrences of it. */
  lemma {:induction false} SplitCharCount(s: string, c: char)
    ensures |SplitOn(s, [c])| == CountChar(s, c) + 1
    decreases |s|
  {
    if |s| > 0 {
      SplitCharCount(s[1..], c);
      assert StartsWith(s, [c]) <==> s[0] == c;
    }
  }

  /**
   * Python `str.lower()` on the characters the source's keywords are drawn from:
   * ASCII letters and the basic Cyrillic block (U+0400..U+042F).
   */
  function LowerChar(c: char): char {
    var n := c as int;
    if 'A' <= c <= 'Z' then (n + 32) as char
    else if 0x410 <= n <= 0x42F then (n + 0x20) as char
    else if 0x400 <= n <= 0x40F then (n + 0x50) as char
    else c
  }

  function Lower(s: string): (r: string)
    ensures |r| == |s|
    ensures forall i :: 0 <= i < |s| ==> r[i] == LowerChar(s[i])
    decreases |s|
  {
    if |s| == 0 then [] else [LowerChar(s[0])] + Lower(s[1..])
  }

  /** Number of maximal runs of non-white-space: Python `len(s.split())`. */
  function WordCount(s: string): nat {
    RunCount(s, false)
  }

  function RunCount(s: string, inWord: bool): nat
    decreases |s|
  {
    if |s| == 0 then 0
    else if IsSpace(Py, s[0]) then RunCount(s[1..], false)
    else (if inWord then 0 else 1) + RunCount(s[1..], true)
  }

  /** ASCII decimal digit (`\d` on the characters a URL can carry unescaped). */
  predicate IsDigit(c: char) {
    '0' <= c <= '9'
  }

  predicate AllDigits(s: string) {
    forall i :: 0 <= i < |s| ==> IsDigit(s[i])
  }

  /** Regular-expression word character `\w` over ASCII: letters, digits and `_`. */
  predicate IsWordChar(c: char) {
    IsDigit(c) || ('a' <= c <= 'z') || ('A' <= c <= 'Z') || c == '_'
  }

  /** Length of the longest prefix of `s` made of digits (what a greedy `\d+` consumes). */
  function DigitRun(s: string): (n: nat)
    ensures n <= |s|
    ensures forall i :: 0 <= i < n ==> IsDigit(s[i])
    ensures n == |s| || !IsDigit(s[n])
    decreases |s|
  {
    if |s| > 0 && IsDigit(s[0]) then 1 + DigitRun(s[1..]) else 0
  }

  lemma DigitRunOfAllDigits(s: string, rest: string)
    requires AllDigits(s)
    requires rest == [] || !IsDigit(rest[0])
    ensures DigitRun(s + rest) == |s|
    decreases |s|
  {
    if |s| > 0 {
      assert (s + rest)[1..] == s[1..] + rest;
      DigitRunOfAllDigits(s[1..], rest);
    } else {
      assert s + rest == rest;
    }
  }

  function DigitChar(d: nat): char
    requires d < 10
  {
    ('0' as int + d) as char
  }

  /** Python `str(n)` for a non-negative integer: its decimal digits, without leading zeros. */
  function NatText(n: nat): (r: string)
    ensures |r| >= 1 && AllDigits(r)
    decreases n
  {
    if n < 10 then [DigitChar(n)] else NatText(n / 10) + [DigitChar(n % 10)]
  }
}
