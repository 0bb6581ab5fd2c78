/**
 * `stripMarkdown` of the search index (apps/web/src/lib/gittydocs/search.ts and
 * its copy in docs.context.tsx): eight regular-expression replacements applied
 * in order. Each pass is written out as the scan the regular expression
 * performs, with the backtracking resolved by hand:
 *
 *  1. /```[\s\S]*?```/g   RemoveFences
 *  2. /`[^`]*`/g          RemoveInlineCode
 *  3. /^#{1,6}\s+/gm      RemoveHeadingMarkers
 *  4. /(\*\*|__|\*|_)/g   RemoveEmphasis
 *  5. /\[([^\]]+)\]\([^)]+\)/g -> "$1"   ReplaceLinks
 *  6. /!\[([^\]]*)\]\([^)]+\)/g          RemoveImages
 *  7. /<[^>]*>/g          RemoveTags
 *  8. /\s+/g -> " ", then trim()          CollapseSpaces, Trim
 */
module MarkdownStrip {
  import opened Text

  /** Every character of `r` occurs in `s`: a pass only deletes or keeps characters. */
  predicate CharsWithin(r: string, s: string) {
    forall i :: 0 <= i < |r| ==> r[i] in s
  }

  lemma CharsWithinSlice(s: string, a: int, b: int)
    requires 0 <= a <= b <= |s|
    ensures CharsWithin(s[a..b], s)
  {
    forall i | 0 <= i < b - a ensures s[a..b][i] in s {
      assert s[a..b][i] == s[a + i];
    }
  }

  lemma CharsWithinConcat(x: string, y: string, s: string)
    requires CharsWithin(x, s) && CharsWithin(y, s)
    ensures CharsWithin(x + y, s)
  {
    forall i | 0 <= i < |x + y| ensures (x + y)[i] in s {
      if i >= |x| { assert (x + y)[i] == y[i - |x|]; }
    }
  }

  lemma CharsWithinTrans(r: string, t: string, s: string)
    requires CharsWithin(r, t) && CharsWithin(t, s)
    ensures CharsWithin(r, s)
  {
    forall i | 0 <= i < |r| ensures r[i] in s {
      var j :| 0 <= j < |t| && t[j] == r[i];
    }
  }

  /** Pass 1: a fence opens at the first ``` and closes at the first ``` after it. */
  function RemoveFences(s: string): (r: string)
    decreases |s|
    ensures |r| <= |s|
  {
    var i := IndexOf(s, "```");
    if i == -1 then s
    else
      var k := IndexOfFrom(s, "```", i + 3);
      if k == -1 then s
      else
        var rest := RemoveFences(s[k + 3..]);
        s[..i] + rest
  }

  /** Pass 2: a backtick with a later backtick delimits a code span. */
  function RemoveInlineCode(s: string): (r: string)
    decreases |s|
    ensures |r| <= |s|
  {
    var i := IndexOfChar(s, '`');
    if i == -1 then s
    else
      var k := IndexOfChar(s[i + 1..], '`');
      if k == -1 then s
      else
        var rest := RemoveInlineCode(s[i + k + 2..]);
        s[..i] + rest
  }

  /** A span between two backticks, with no backtick before it, goes with its backticks. */
  lemma InlineCodeRemoved(pre: string, code: string, rest: string)
    requires '`' !in pre && '`' !in code
    ensures RemoveInlineCode(pre + "`" + code + "`" + rest) == pre + RemoveInlineCode(rest)
  {
    var s := pre + "`" + code + "`" + rest;
    var i := |pre|;
    assert s[..i] == pre;
    IndexOfCharAt(s, '`', i);
    var t := s[i + 1..];
    assert t == code + "`" + rest;
    assert t[..|code|] == code;
    IndexOfCharAt(t, '`', |code|);
    assert s[i + |code| + 2..] == rest;
  }

  /** A fenced block, with no backtick before it or inside it, goes with both fences. */
  lemma FenceRemoved(pre: string, code: string, rest: string)
    requires '`' !in pre && '`' !in code
    ensures RemoveFences(pre + "```" + code + "```" + rest) == pre + RemoveFences(rest)
  {
    var s := pre + "```" + code + "```" + rest;
    var i := |pre|;
    var k := i + 3 + |code|;
    assert s[..i] == pre;
    assert OccursAt(s, "```", i);
    forall j | 0 <= j < i
      ensures !OccursAt(s, "```", j)
    {
      assert s[j] == pre[j];
    }
    assert IndexOf(s, "```") == i;
    assert OccursAt(s, "```", k);
    forall j | i + 3 <= j < k
      ensures !OccursAt(s, "```", j)
    {
      assert s[j] == code[j - i - 3];
    }
    assert IndexOfFrom(s, "```", i + 3) == k;
    assert s[k + 3..] == rest;
  }

  /** `^` in multiline mode: the start of the input or just after a line terminator. */
  predicate LineStartAt(s: string, p: nat) {
    p == 0 || (p <= |s| && IsLineTerminator(s[p - 1]))
  }

  /**
   * Length of the /^#{1,6}\s+/ match at `p`, or 0. Seven or more `#` cannot
   * match: backing off leaves a `#` where whitespace is needed.
   */
  function HeadingMarkerAt(s: string, p: nat): (m: nat)
    ensures m > 0 ==> p + m <= |s| && s[p] == '#'
  {
    var h := RunOf(s, p, '#');
    if LineStartAt(s, p) && 1 <= h <= 6 && SpaceRun(s, p + h) >= 1 then h + SpaceRun(s, p + h)
    else 0
  }

  /** One to six `#` followed by whitespace at the start mark a heading: the marker and all the whitespace go. */
  lemma HeadingMarkerLength(s: string, h: nat)
    requires 1 <= h <= 6 && h < |s| && IsSpace(s[h])
    requires forall k :: 0 <= k < h ==> s[k] == '#'
    ensures HeadingMarkerAt(s, 0) == h + SpaceRun(s, h)
  {
  }

  /** Seven `#` in a row at the start are not a heading marker. */
  lemma SevenHashesKept(s: string)
    requires 7 <= |s| && forall k :: 0 <= k < 7 ==> s[k] == '#'
    ensures HeadingMarkerAt(s, 0) == 0
  {
  }

  function RemoveHeadingMarkersFrom(s: string, p: nat): (r: string)
    decreases |s| - p
    ensures |r| <= |s| - p || (p >= |s| && r == [])
  {
    if p >= |s| then []
    else
      var m := HeadingMarkerAt(s, p);
      if m > 0 then RemoveHeadingMarkersFrom(s, p + m)
      else
        var rest := RemoveHeadingMarkersFrom(s, p + 1);
        [s[p]] + rest
  }

  /** Pass 3: heading markers at line starts. */
  function RemoveHeadingMarkers(s: string): (r: string)
    ensures |r| <= |s|
  {
    RemoveHeadingMarkersFrom(s, 0)
  }

  /** Pass 4: every `*` and `_` goes, whatever pairs they form. */
  function RemoveEmphasis(s: string): (r: string)
    ensures |r| <= |s|
    ensures '*' !in r && '_' !in r
  {
    if |s| == 0 then []
    else
      var rest := RemoveEmphasis(s[1..]);
      if s[0] == '*' || s[0] == '_' then rest
      else [s[0]] + rest
  }

  /**
   * Pass 5 at the head of `s`: `[text](url)` with non-empty text free of `]` and
   * non-empty url free of `)`. Returns the length of the match, or 0, and the
   * length of the text.
   */
  function LinkAt(s: string): (m: (nat, nat))
    ensures m.0 > 0 ==> 1 <= m.1 && m.1 + 4 <= m.0 <= |s| && s[0] == '['
  {
    if |s| == 0 || s[0] != '[' then (0, 0)
    else LinkAfterText(s, IndexOfChar(s[1..], ']'))
  }

  /** The rest of `LinkAt` once the text is known to end at the first `]`, at `j + 1`. */
  function LinkAfterText(s: string, j: int): (m: (nat, nat))
    ensures m.0 > 0 ==> 1 <= m.1 && m.1 + 4 <= m.0 <= |s|
  {
    if j < 1 || j + 2 >= |s| || s[j + 2] != '(' then (0, 0)
    else
      var u := IndexOfChar(s[j + 3..], ')');
      if u < 1 then (0, 0) else (j + u + 4, j)
  }

  /** Pass 5: a link keeps only its text. */
  function ReplaceLinks(s: string): (r: string)
    decreases |s|
    ensures |r| <= |s|
  {
    if |s| == 0 then []
    else
      var m := LinkAt(s);
      if m.0 > 0 then
        var rest := ReplaceLinks(s[m.0..]);
        s[1..1 + m.1] + rest
      else
        var rest := ReplaceLinks(s[1..]);
        [s[0]] + rest
  }

  /** Pass 6 at the head of `s`: `![alt](url)` with a possibly empty alt. */
  function ImageAt(s: string): (m: nat)
    ensures m > 0 ==> 5 <= m <= |s|
  {
    if |s| < 2 || s[0] != '!' || s[1] != '[' then 0
    else
      var j := IndexOfChar(s[2..], ']');
      if j < 0 || j + 3 >= |s| || s[j + 3] != '(' then 0
      else
        var u := IndexOfChar(s[j + 4..], ')');
        if u < 1 then 0 else j + u + 5
  }

  /** Pass 6: images disappear, alt text included. */
  function RemoveImages(s: string): (r: string)
    decreases |s|
    ensures |r| <= |s|
  {
    if |s| == 0 then []
    else
      var m := ImageAt(s);
      if m > 0 then
        var rest := RemoveImages(s[m..]);
        rest
      else
        var rest := RemoveImages(s[1..]);
        [s[0]] + rest
  }

  /** Pass 7: `<` up to the next `>` goes. */
  function RemoveTags(s: string): (r: string)
    decreases |s|
    ensures |r| <= |s|
  {
    if |s| == 0 then []
    else
      var k := if s[0] == '<' then IndexOfChar(s[1..], '>') else -1;
      if k >= 0 then
        var rest := RemoveTags(s[k + 2..]);
        rest
      else
        var rest := RemoveTags(s[1..]);
        [s[0]] + rest
  }

  /** No whitespace but single spaces: every whitespace character is `' '` and is followed by a non-space. */
  predicate SingleSpaced(r: string) {
    forall i :: 0 <= i < |r| && IsSpace(r[i]) ==> r[i] == ' ' && (i + 1 < |r| ==> !IsSpace(r[i + 1]))
  }

  /** Pass 8a: every whitespace run becomes one space. */
  function CollapseSpaces(s: string): (r: string)
    decreases |s|
    ensures |r| <= |s|
    ensures SingleSpaced(r)
    ensures |r| > 0 ==> (IsSpace(r[0]) <==> IsSpace(s[0]))
  {
    if |s| == 0 then []
    else
      var n := SpaceRun(s, 0);
      if n > 0 then
        var rest := CollapseSpaces(s[n..]);
        assert n < |s| ==> !IsSpace(s[n..][0]);
        [' '] + rest
      else
        var rest := CollapseSpaces(s[1..]);
        [s[0]] + rest
  }

  /** Collapsing only introduces spaces: any other character comes from the input. */
  lemma {:induction false} CollapseWithin(s: string)
    ensures forall c :: c in CollapseSpaces(s) && c != ' ' ==> c in s
    decreases |s|
  {
    if |s| > 0 {
      var n := SpaceRun(s, 0);
      var m := if n > 0 then n else 1;
      var rest := CollapseSpaces(s[m..]);
      CollapseWithin(s[m..]);
      var r := CollapseSpaces(s);
      assert r == [if n > 0 then ' ' else s[0]] + rest;
      forall c | c in r && c != ' ' ensures c in s {
        if c != r[0] {
          assert c in rest;
          assert c in s[m..];
        }
      }
    }
  }

  lemma SingleSpacedSlice(r: string, a: int, b: int)
    requires SingleSpaced(r) && 0 <= a <= b <= |r|
    ensures SingleSpaced(r[a..b])
  {
    forall i | 0 <= i < b - a && IsSpace(r[a..b][i])
      ensures r[a..b][i] == ' ' && (i + 1 < b - a ==> !IsSpace(r[a..b][i + 1]))
    {
      assert r[a..b][i] == r[a + i];
      if i + 1 < b - a { assert r[a..b][i + 1] == r[a + i + 1]; }
    }
  }

  /** The whole chain, in source order: never longer than its input, and trimmed. */
  function StripMarkdown(content: string): (r: string)
    ensures |r| <= |content|
    ensures r == [] || (!IsSpace(r[0]) && !IsSpace(r[|r| - 1]))
  {
    Trim(CollapseSpaces(RemoveTags(RemoveImages(ReplaceLinks(
      RemoveEmphasis(RemoveHeadingMarkers(RemoveInlineCode(RemoveFences(content)))))))))
  }

  /** Passes 5 to 7 only copy characters of their input. */
  lemma {:induction false} LinksWithin(s: string)
    ensures CharsWithin(ReplaceLinks(s), s)
    decreases |s|
  {
    if |s| > 0 {
      var m := LinkAt(s);
      if m.0 > 0 {
        LinksWithin(s[m.0..]);
        CharsWithinSlice(s, 1, 1 + m.1);
        CharsWithinSlice(s, m.0, |s|);
        CharsWithinTrans(ReplaceLinks(s[m.0..]), s[m.0..], s);
        CharsWithinConcat(s[1..1 + m.1], ReplaceLinks(s[m.0..]), s);
      } else {
        LinksWithin(s[1..]);
        CharsWithinSlice(s, 1, |s|);
        CharsWithinTrans(ReplaceLinks(s[1..]), s[1..], s);
        CharsWithinConcat([s[0]], ReplaceLinks(s[1..]), s);
      }
    }
  }

  lemma {:induction false} ImagesWithin(s: string)
    ensures CharsWithin(RemoveImages(s), s)
    decreases |s|
  {
    if |s| > 0 {
      var m := ImageAt(s);
      if m > 0 {
        ImagesWithin(s[m..]);
        CharsWithinSlice(s, m, |s|);
        CharsWithinTrans(RemoveImages(s[m..]), s[m..], s);
      } else {
        ImagesWithin(s[1..]);
        CharsWithinSlice(s, 1, |s|);
        CharsWithinTrans(RemoveImages(s[1..]), s[1..], s);
        CharsWithinConcat([s[0]], RemoveImages(s[1..]), s);
      }
    }
  }

  lemma {:induction false} TagsWithin(s: string)
    ensures CharsWithin(RemoveTags(s), s)
    decreases |s|
  {
    if |s| > 0 {
      var k := if s[0] == '<' then IndexOfChar(s[1..], '>') else -1;
      if k >= 0 {
        TagsWithin(s[k + 2..]);
        CharsWithinSlice(s, k + 2, |s|);
        CharsWithinTrans(RemoveTags(s[k + 2..]), s[k + 2..], s);
      } else {
        TagsWithin(s[1..]);
        CharsWithinSlice(s, 1, |s|);
        CharsWithinTrans(RemoveTags(s[1..]), s[1..], s);
        CharsWithinConcat([s[0]], RemoveTags(s[1..]), s);
      }
    }
  }

  /** `trim()` keeps a contiguous slice of its input. */
  lemma TrimIsSlice(s: string) returns (a: nat, b: nat)
    ensures a <= b <= |s| && Trim(s) == s[a..b]
  {
    var ts := TrimStart(s);
    var r := TrimEnd(ts);
    a := |s| - |ts|;
    b := a + |r|;
    assert ts == s[a..];
    assert r == ts[..|r|];
  }

  /** The characters left by passes 4 to 8: none is `*` or `_`. */
  lemma NoEmphasisAfterCollapse(e: string, t: string)
    requires '*' !in e && '_' !in e && CharsWithin(t, e)
    ensures '*' !in CollapseSpaces(t) && '_' !in CollapseSpaces(t)
  {
    var c := CollapseSpaces(t);
    CollapseWithin(t);
    forall i | 0 <= i < |c| ensures c[i] != '*' && c[i] != '_' {
      if c[i] != ' ' {
        assert c[i] in c;
        var j :| 0 <= j < |t| && t[j] == c[i];
        assert t[j] in e;
      }
    }
  }

  /**
   * What the chain guarantees: no `*` or `_` survives, whitespace is single
   * spaces, the result is trimmed, and it is never longer than the input.
   */
  lemma StripMarkdownShape(content: string)
    ensures var r := StripMarkdown(content);
      |r| <= |content| && '*' !in r && '_' !in r && SingleSpaced(r)
      && (r == [] || (r[0] != ' ' && r[|r| - 1] != ' '))
  {
    var e := RemoveEmphasis(RemoveHeadingMarkers(RemoveInlineCode(RemoveFences(content))));
    var l := ReplaceLinks(e);
    var im := RemoveImages(l);
    var t := RemoveTags(im);
    LinksWithin(e);
    ImagesWithin(l);
    TagsWithin(im);
    CharsWithinTrans(im, l, e);
    CharsWithinTrans(t, im, e);
    NoEmphasisAfterCollapse(e, t);
    var c := CollapseSpaces(t);
    var r := Trim(c);
    assert r == StripMarkdown(content);
    var a, b := TrimIsSlice(c);
    SingleSpacedSlice(c, a, b);
    SliceAvoids(c, a, b, '*');
    SliceAvoids(c, a, b, '_');
  }

  lemma SliceAvoids<X>(s: seq<X>, a: nat, b: nat, x: X)
    requires a <= b <= |s| && x !in s
    ensures x !in s[a..b]
  {
  }

  /** Text free of the characters any of passes 1 to 7 looks for. */
  predicate PlainText(s: string) {
    '`' !in s && '#' !in s && '*' !in s && '_' !in s && '[' !in s && '<' !in s
  }

  lemma {:induction false} HeadingMarkersKeepPlain(s: string, p: nat)
    requires '#' !in s && p <= |s|
    ensures RemoveHeadingMarkersFrom(s, p) == s[p..]
    decreases |s| - p
  {
    if p < |s| {
      assert s[p] != '#';
      HeadingMarkersKeepPlain(s, p + 1);
      assert s[p..] == [s[p]] + s[p + 1..];
    }
  }

  lemma {:induction false} PlainPassesKeep(s: string)
    requires PlainText(s)
    ensures RemoveEmphasis(s) == s && ReplaceLinks(s) == s
    ensures RemoveImages(s) == s && RemoveTags(s) == s
  {
    if |s| > 0 {
      PlainPassesKeep(s[1..]);
      assert s == [s[0]] + s[1..];
      assert ImageAt(s) == 0 by { if |s| >= 2 { assert s[1] != '['; } }
    }
  }

  lemma FencesKeepPlain(s: string)
    requires '`' !in s
    ensures RemoveFences(s) == s && RemoveInlineCode(s) == s
  {
    forall k | 0 <= k && k + 3 <= |s| ensures !OccursAt(s, "```", k) {
      assert s[k..k + 3][0] == s[k] != '`';
    }
  }

  /** On text with no Markdown syntax, stripping only normalises whitespace. */
  lemma StripPlainText(s: string)
    requires PlainText(s)
    ensures StripMarkdown(s) == Trim(CollapseSpaces(s))
  {
    FencesKeepPlain(s);
    HeadingMarkersKeepPlain(s, 0);
    assert RemoveHeadingMarkers(s) == s;
    PlainPassesKeep(s);
  }

  /** The layout of `[text](url)rest`, over any element type so that no character reasoning is involved. */
  lemma LinkLayout<X>(t: seq<X>, open: X, text: seq<X>, close: X, paren: X, url: seq<X>, shut: X, rest: seq<X>)
    requires t == [open] + text + [close, paren] + url + [shut] + rest
    ensures |text| + |url| + 4 <= |t|
    ensures t[0] == open && t[|text| + 1] == close && t[|text| + 2] == paren && t[|text| + |url| + 3] == shut
    ensures t[1..|text| + 1] == text && t[|text| + 3..|text| + |url| + 3] == url
    ensures t[|text| + |url| + 4..] == rest
  {
  }

  /**
   * A link at the head of `t`: `[`, a text of `n` characters without `]`,
   * `](`, a url of `m` characters without `)`, and `)`.
   */
  lemma LinkAtLink(t: string, n: nat, m: nat)
    requires 1 <= n && 1 <= m && n + m + 4 <= |t|
    requires t[0] == '[' && t[n + 1] == ']' && t[n + 2] == '(' && t[n + m + 3] == ')'
    requires ']' !in t[1..n + 1] && ')' !in t[n + 3..n + m + 3]
    ensures LinkAt(t) == (n + m + 4, n)
  {
    assert t[1..][..n] == t[1..n + 1];
    IndexOfCharAt(t[1..], ']', n);
    assert t[n + 3..][..m] == t[n + 3..n + m + 3];
    IndexOfCharAt(t[n + 3..], ')', m);
  }

  /** A link `[text](url)` at the head of the input keeps its text and the scan resumes after it. */
  lemma LinkReplaced(text: string, url: string, rest: string)
    requires |text| >= 1 && ']' !in text && |url| >= 1 && ')' !in url
    ensures ReplaceLinks("[" + text + "](" + url + ")" + rest) == text + ReplaceLinks(rest)
  {
    var t := "[" + text + "](" + url + ")" + rest;
    assert t == ['['] + text + [']', '('] + url + [')'] + rest;
    LinkLayout(t, '[', text, ']', '(', url, ')', rest);
    LinkAtLink(t, |text|, |url|);
  }

  /**
   * Links are replaced before images, so the link pattern inside an image
   * fires first: `![alt](url)` becomes `!alt`, and the image pass no longer
   * sees an image.
   */
  lemma ImageAltSurvives(alt: string, url: string, rest: string)
    requires |alt| >= 1 && ']' !in alt && |url| >= 1 && ')' !in url
    ensures ReplaceLinks("![" + alt + "](" + url + ")" + rest) == "!" + alt + ReplaceLinks(rest)
  {
    var s := "![" + alt + "](" + url + ")" + rest;
    var t := "[" + alt + "](" + url + ")" + rest;
    assert s == "!" + t && s[1..] == t;
    assert LinkAt(s) == (0, 0);
    LinkReplaced(alt, url, rest);
  }
}
