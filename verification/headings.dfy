/**
 * Heading extraction for the table of contents and `slugify`
 * (apps/web/src/gittydocs/contexts/docs.context.tsx `extractHeadings`, its copy
 * `extractHeadingsFromMarkdown` in doc-content.tsx, and the fence-blind copy in
 * apps/web/src/lib/docs/docs-data.ts).
 *
 * The content is split on `\n`; each line is read by a scanner whose state is
 * "outside a fence" or "inside a fence opened by `len` copies of `ch`".
 */
module Headings {
  import opened Wrappers
  import opened Text
  import opened Types

  // ---------------------------------------------------------------------------
  // slugify
  // ---------------------------------------------------------------------------

  /** The characters a slug may hold: `[a-z0-9_-]`. */
  predicate IsSlugChar(c: char) {
    IsLower(c) || IsDigit(c) || c == '_' || c == '-'
  }

  predicate SlugChars(s: string) {
    forall i :: 0 <= i < |s| ==> IsSlugChar(s[i])
  }

  /** No two hyphens in a row. */
  predicate NoDoubleHyphen(s: string) {
    forall i :: 0 <= i < |s| - 1 ==> !(s[i] == '-' && s[i + 1] == '-')
  }

  /** `replace(/[^\w\s-]/g, "")`: keep word characters, whitespace and `-`. */
  function KeepSlugSource(s: string): (r: string)
    ensures |r| <= |s|
    ensures forall i :: 0 <= i < |r| ==> IsWordChar(r[i]) || IsSpace(r[i]) || r[i] == '-'
    ensures (forall i :: 0 <= i < |s| ==> !IsUpper(s[i])) ==> forall i :: 0 <= i < |r| ==> !IsUpper(r[i])
  {
    if |s| == 0 then []
    else
      var rest := KeepSlugSource(s[1..]);
      if IsWordChar(s[0]) || IsSpace(s[0]) || s[0] == '-' then [s[0]] + rest else rest
  }

  /** `replace(/\s+/g, "-")`: every whitespace run becomes one hyphen. */
  function HyphenateSpaces(s: string): (r: string)
    decreases |s|
    ensures forall i :: 0 <= i < |r| ==> !IsSpace(r[i])
    ensures (forall i :: 0 <= i < |s| ==> IsSlugChar(s[i]) || IsSpace(s[i])) ==> SlugChars(r)
  {
    if |s| == 0 then []
    else
      var n := SpaceRun(s, 0);
      if n > 0 then ['-'] + HyphenateSpaces(s[n..])
      else [s[0]] + HyphenateSpaces(s[1..])
  }

  /** `replace(/-+/g, "-")`: every hyphen run becomes one hyphen. */
  function CollapseHyphens(s: string): (r: string)
    decreases |s|
    ensures NoDoubleHyphen(r)
    ensures |r| > 0 ==> |s| > 0 && (r[0] == '-' <==> s[0] == '-')
    ensures SlugChars(s) ==> SlugChars(r)
  {
    if |s| == 0 then []
    else
      var n := RunOf(s, 0, '-');
      if n > 0 then
        var rest := CollapseHyphens(s[n..]);
        assert n < |s| ==> s[n..][0] != '-';
        ['-'] + rest
      else [s[0]] + CollapseHyphens(s[1..])
  }

  /**
   * `slugify`: lowercase, drop what is not a word character, whitespace or
   * `-`, turn whitespace runs into `-`, collapse hyphen runs, trim. The result
   * holds only `[a-z0-9_-]` and never two hyphens in a row.
   */
  function Slugify(text: string): string {
    Trim(CollapseHyphens(HyphenateSpaces(KeepSlugSource(ToLower(text)))))
  }

  lemma SlugifyShape(text: string)
    ensures SlugChars(Slugify(text)) && NoDoubleHyphen(Slugify(text))
  {
    var kept := KeepSlugSource(ToLower(text));
    var hy := HyphenateSpaces(kept);
    var col := CollapseHyphens(hy);
    assert forall i :: 0 <= i < |col| ==> !IsSpace(col[i]);
    NoSpaceTrims(col);
  }

  /** With no whitespace left, `trim()` changes nothing. */
  lemma NoSpaceTrims(s: string)
    requires forall i :: 0 <= i < |s| ==> !IsSpace(s[i])
    ensures Trim(s) == s
  {
    if |s| > 0 {
      assert !IsSpace(s[0]) && !IsSpace(s[|s| - 1]);
    }
  }

  // ---------------------------------------------------------------------------
  // Single lines
  // ---------------------------------------------------------------------------

  /**
   * `line.match(/^\s*(```+|~~~+)/)`: after the leading whitespace, a run of at
   * least three backticks, or else of at least three tildes. The marker is the
   * whole run: its character and its length.
   */
  function FenceMarker(line: string): Option<(char, nat)>
  {
    var w := SpaceRun(line, 0);
    var ticks := RunOf(line, w, '`');
    if ticks >= 3 then Some(('`', ticks))
    else
      var tildes := RunOf(line, w, '~');
      if tildes >= 3 then Some(('~', tildes)) else None
  }

  lemma FenceMarkerShape(line: string)
    ensures var r := FenceMarker(line);
      (r.Some? ==> (r.value.0 == '`' || r.value.0 == '~') && r.value.1 >= 3)
      && (r.Some? ==> var w := SpaceRun(line, 0);
        w + r.value.1 <= |line| && (forall k :: w <= k < w + r.value.1 ==> line[k] == r.value.0)
        && (w + r.value.1 == |line| || line[w + r.value.1] != r.value.0))
      && (r.None? ==> var w := SpaceRun(line, 0);
        RunOf(line, w, '`') < 3 && RunOf(line, w, '~') < 3)
  {
  }

  predicate NoLineTerminator(s: string) {
    forall i :: 0 <= i < |s| ==> !IsLineTerminator(s[i])
  }

  /**
   * `line.match(/^(#{1,6})\s+(.+)$/)`, level and trimmed text. The `#` run must
   * have length 1..6 and be followed by whitespace; `.+$` must reach the end of
   * the line without a line terminator. When nothing follows the whitespace,
   * the pattern still matches by giving its last whitespace character to `.+`,
   * which leaves an empty text.
   */
  function HeadingLine(line: string): Option<Heading>
  {
    var k := RunOf(line, 0, '#');
    if k < 1 || k > 6 then None
    else HeadingAfterHashes(line, k, SpaceRun(line, k))
  }

  /** The rest of `HeadingLine` once the `#` run (`k` long) and the whitespace after it (`m` long) are known. */
  function HeadingAfterHashes(line: string, k: nat, m: nat): Option<Heading>
  {
    if m == 0 || k + m > |line| then None
    else
      var rest := line[k + m..];
      if |rest| > 0 then
        if NoLineTerminator(rest) then
          Some(Heading(k, Trim(rest), Slugify(Trim(rest))))
        else None
      else if m >= 2 && !IsLineTerminator(line[|line| - 1]) then
        Some(Heading(k, "", Slugify("")))
      else None
  }

  /** A heading found after the hashes has their count as level, trimmed text and the slug of that text. */
  lemma HeadingAfterHashesShape(line: string, k: nat, m: nat)
    ensures var r := HeadingAfterHashes(line, k, m);
      (r.Some? ==>
         r.value.level == k && m > 0 && k + m <= |line|
         && r.value.text == Trim(r.value.text) && r.value.slug == Slugify(r.value.text))
      && (|line| > 0 && IsLineTerminator(line[|line| - 1]) ==> r.None?)
  {
    if m > 0 && k + m <= |line| {
      var rest := line[k + m..];
      if |rest| > 0 {
        TrimIdempotent(rest);
        if IsLineTerminator(line[|line| - 1]) {
          assert rest[|rest| - 1] == line[|line| - 1];
        }
      } else {
        assert Trim("") == "";
      }
    }
  }

  /**
   * A reported heading has level 1..6, equal to the number of leading `#`,
   * whitespace right after the hashes, trimmed text and the slug of that text.
   * Seven or more `#` never match, and neither does a line ending in a line
   * terminator (a `\r` left by CRLF input): `.` cannot match it.
   */
  lemma HeadingLineShape(line: string)
    ensures var r := HeadingLine(line);
      (r.Some? ==>
         1 <= r.value.level <= 6 && r.value.level == RunOf(line, 0, '#')
         && IsSpace(line[r.value.level])
         && r.value.text == Trim(r.value.text) && r.value.slug == Slugify(r.value.text))
      && (RunOf(line, 0, '#') > 6 ==> r.None?)
      && (|line| > 0 && IsLineTerminator(line[|line| - 1]) ==> r.None?)
  {
    var k := RunOf(line, 0, '#');
    if 1 <= k <= 6 {
      HeadingAfterHashesShape(line, k, SpaceRun(line, k));
    }
  }

  // ---------------------------------------------------------------------------
  // The scanner
  // ---------------------------------------------------------------------------

  datatype FenceState = Outside | Inside(ch: char, len: nat)

  /** A line whose marker closes a fence opened by `len` copies of `ch`. */
  predicate Closes(ch: char, len: nat, line: string) {
    var fm := FenceMarker(line);
    fm.Some? && fm.value.0 == ch && fm.value.1 >= len
  }

  /**
   * One line of the loop: a marker opens a fence when none is open, and
   * closes the open one when it has the same character and is at least as
   * long; any other line inside a fence is skipped; outside, a heading line
   * yields its heading.
   */
  function Step(st: FenceState, line: string): (FenceState, Option<Heading>) {
    var fm := FenceMarker(line);
    if fm.Some? && st.Outside? then (Inside(fm.value.0, fm.value.1), None)
    else if st.Inside? && Closes(st.ch, st.len, line) then (Outside, None)
    else if st.Inside? then (st, None)
    else (st, HeadingLine(line))
  }

  /** The headings the scanner reports for `lines`, starting in state `st`. */
  function Run(st: FenceState, lines: seq<string>): seq<Heading>
    decreases |lines|
  {
    if |lines| == 0 then []
    else
      var (next, h) := Step(st, lines[0]);
      (if h.Some? then [h.value] else []) + Run(next, lines[1..])
  }

  /** The fence rule: inside a fence no line is a heading, and only a matching marker leaves it. */
  lemma FenceRule(ch: char, len: nat, line: string)
    ensures Step(Inside(ch, len), line).1.None?
    ensures Step(Inside(ch, len), line).0 == (if Closes(ch, len, line) then Outside else Inside(ch, len))
    ensures FenceMarker(line).Some? ==> Step(Outside, line) == (Inside(FenceMarker(line).value.0, FenceMarker(line).value.1), None)
  {
  }

  /** A fence that never closes suppresses every later heading. */
  lemma {:induction false} UnclosedFenceHidesAll(ch: char, len: nat, lines: seq<string>)
    requires forall i :: 0 <= i < |lines| ==> !Closes(ch, len, lines[i])
    ensures Run(Inside(ch, len), lines) == []
    decreases |lines|
  {
    if |lines| > 0 {
      assert Step(Inside(ch, len), lines[0]) == (Inside(ch, len), None);
      UnclosedFenceHidesAll(ch, len, lines[1..]);
    }
  }

  /** Every reported heading is the heading of one of the lines. */
  lemma {:induction false} RunFromLines(st: FenceState, lines: seq<string>)
    ensures forall h :: h in Run(st, lines) ==> exists i :: 0 <= i < |lines| && HeadingLine(lines[i]) == Some(h)
    decreases |lines|
  {
    if |lines| > 0 {
      var (next, hd) := Step(st, lines[0]);
      RunFromLines(next, lines[1..]);
      forall h | h in Run(st, lines)
        ensures exists i :: 0 <= i < |lines| && HeadingLine(lines[i]) == Some(h)
      {
        if hd.Some? && h == hd.value {
          assert HeadingLine(lines[0]) == Some(h);
        } else {
          assert h in Run(next, lines[1..]);
          var i :| 0 <= i < |lines[1..]| && HeadingLine(lines[1..][i]) == Some(h);
          assert lines[1..][i] == lines[i + 1];
        }
      }
    }
  }

  /** One more line of the scan. */
  lemma RunUnfold(st: FenceState, lines: seq<string>, i: nat, next: FenceState, h: Option<Heading>)
    requires i < |lines| && Step(st, lines[i]) == (next, h)
    ensures Run(st, lines[i..]) == (if h.Some? then [h.value] else []) + Run(next, lines[i + 1..])
  {
    assert lines[i..][1..] == lines[i + 1..];
  }

  /** The scanning loop's invariant survives one more line. */
  lemma ScanStep(lines: seq<string>, i: nat, headings: seq<Heading>, st: FenceState, next: FenceState, h: Option<Heading>)
    requires i < |lines| && Step(st, lines[i]) == (next, h)
    requires headings + Run(st, lines[i..]) == Run(Outside, lines)
    ensures (if h.Some? then headings + [h.value] else headings) + Run(next, lines[i + 1..]) == Run(Outside, lines)
  {
    RunUnfold(st, lines, i, next, h);
    Assoc(headings, if h.Some? then [h.value] else [], Run(next, lines[i + 1..]));
  }

  /** The three scanner variables of the source, read as a `FenceState`. */
  function StateOf(inFence: bool, fenceChar: Option<char>, fenceLength: nat): FenceState
    requires inFence ==> fenceChar.Some?
  {
    if inFence then Inside(fenceChar.value, fenceLength) else Outside
  }

  /**
   * The body of the scanning loop for one line: the fence variables after
   * the line and the heading it contributes, which is `Step` on the state.
   */
  method ScanLine(inFence: bool, fenceChar: Option<char>, fenceLength: nat, line: string)
    returns (inFence': bool, fenceChar': Option<char>, fenceLength': nat, h: Option<Heading>)
    requires inFence ==> fenceChar.Some?
    requires !inFence ==> fenceChar.None? && fenceLength == 0
    ensures inFence' ==> fenceChar'.Some?
    ensures !inFence' ==> fenceChar'.None? && fenceLength' == 0
    ensures StateOf(inFence', fenceChar', fenceLength') == Step(StateOf(inFence, fenceChar, fenceLength), line).0
    ensures h == Step(StateOf(inFence, fenceChar, fenceLength), line).1
  {
    inFence', fenceChar', fenceLength', h := inFence, fenceChar, fenceLength, None;
    var fenceMatch := FenceMarker(line);
    if fenceMatch.Some? {
      var marker := fenceMatch.value;
      if !inFence {
        inFence', fenceChar', fenceLength' := true, Some(marker.0), marker.1;
        return;
      }
      if fenceChar.Some? && marker.0 == fenceChar.value && marker.1 >= fenceLength {
        inFence', fenceChar', fenceLength' := false, None, 0;
        return;
      }
    }
    if inFence {
      return;
    }
    h := HeadingLine(line);
  }

  /**
   * `extractHeadings` / `extractHeadingsFromMarkdown`: the loop over the lines
   * with `inFence`, `fenceChar` and `fenceLength`.
   */
  method ExtractHeadings(content: string) returns (headings: seq<Heading>)
    ensures headings == Run(Outside, Split(content, '\n'))
  {
    headings := ScanLines(Split(content, '\n'));
  }

  method ScanLines(lines: seq<string>) returns (headings: seq<Heading>)
    ensures headings == Run(Outside, lines)
  {
    headings := [];
    var inFence := false;
    var fenceChar: Option<char> := None;
    var fenceLength: nat := 0;
    var i := 0;
    while i < |lines|
      invariant 0 <= i <= |lines|
      invariant inFence ==> fenceChar.Some?
      invariant !inFence ==> fenceChar.None? && fenceLength == 0
      invariant headings + Run(StateOf(inFence, fenceChar, fenceLength), lines[i..]) == Run(Outside, lines)
    {
      ghost var st := StateOf(inFence, fenceChar, fenceLength);
      var h;
      inFence, fenceChar, fenceLength, h := ScanLine(inFence, fenceChar, fenceLength, lines[i]);
      ScanStep(lines, i, headings, st, StateOf(inFence, fenceChar, fenceLength), h);
      if h.Some? {
        headings := headings + [h.value];
      }
      i := i + 1;
    }
  }

  // ---------------------------------------------------------------------------
  // The fence-blind copy (apps/web/src/lib/docs/docs-data.ts)
  // ---------------------------------------------------------------------------

  /** The headings of every line, with no fence tracking. */
  function RunPlain(lines: seq<string>): seq<Heading>
    decreases |lines|
  {
    if |lines| == 0 then []
    else
      var h := HeadingLine(lines[0]);
      (if h.Some? then [h.value] else []) + RunPlain(lines[1..])
  }

  /** `extractHeadings` of docs-data.ts: every heading line counts, even inside a code fence. */
  method ExtractHeadingsPlain(content: string) returns (headings: seq<Heading>)
    ensures headings == RunPlain(Split(content, '\n'))
  {
    var lines := Split(content, '\n');
    headings := [];
    var i := 0;
    while i < |lines|
      invariant 0 <= i <= |lines|
      invariant headings + RunPlain(lines[i..]) == RunPlain(lines)
    {
      assert lines[i..][1..] == lines[i + 1..];
      var h := HeadingLine(lines[i]);
      ghost var before := headings;
      if h.Some? {
        headings := headings + [h.value];
      }
      assert headings == before + (if h.Some? then [h.value] else []);
      Assoc(before, if h.Some? then [h.value] else [], RunPlain(lines[i + 1..]));
      i := i + 1;
    }
  }

  /** On content with no fence marker line, both extractors agree. */
  lemma {:induction false} PlainAgreesWithoutFences(lines: seq<string>)
    requires forall i :: 0 <= i < |lines| ==> FenceMarker(lines[i]).None?
    ensures Run(Outside, lines) == RunPlain(lines)
    decreases |lines|
  {
    if |lines| > 0 {
      assert Step(Outside, lines[0]) == (Outside, HeadingLine(lines[0]));
      PlainAgreesWithoutFences(lines[1..]);
    }
  }

  lemma TickFenceLine()
    ensures FenceMarker("```") == Some(('`', 3)) && HeadingLine("```").None?
  {
    assert SpaceRun("```", 0) == 0;
    assert RunOf("```", 0, '`') == 3 by {
      assert RunOf("```", 3, '`') == 0;
      assert RunOf("```", 2, '`') == 1;
    }
  }

  lemma HeadingIsNoFence(line: string)
    requires HeadingLine(line).Some?
    ensures FenceMarker(line).None?
  {
    assert line[0] == '#';
    assert SpaceRun(line, 0) == 0;
  }

  /** A heading line between two ``` lines: hidden from the fence-aware scanner, reported by the fence-blind one. */
  lemma FencedHeadingDiffers(line: string)
    requires HeadingLine(line).Some?
    ensures Run(Outside, ["```", line, "```"]) == []
    ensures RunPlain(["```", line, "```"]) == [HeadingLine(line).value]
  {
    var fence := "```";
    TickFenceLine();
    HeadingIsNoFence(line);
    var lines := [fence, line, fence];
    assert lines[1..] == [line, fence] && lines[1..][1..] == [fence];
    assert Step(Outside, fence) == (Inside('`', 3), None);
    assert Step(Inside('`', 3), line) == (Inside('`', 3), None);
    assert Step(Inside('`', 3), fence) == (Outside, None);
    assert Run(Inside('`', 3), [fence]) == [];
    assert Run(Inside('`', 3), [line, fence]) == [];
    assert RunPlain([fence]) == [];
    assert RunPlain([line, fence]) == [HeadingLine(line).value];
  }

  // ---------------------------------------------------------------------------
  // doc-content.tsx: the page for a slug and its headings
  // ---------------------------------------------------------------------------

  /** The route a document answers to: `/` for the root document, else `/` + `slugAsParams`. */
  function DocSlug(slugAsParams: string): (r: string)
    ensures r == "/" <==> slugAsParams == ""
    ensures |r| == |slugAsParams| + 1
    ensures slugAsParams != "" ==> r[0] == '/' && r[1..] == slugAsParams
  {
    if slugAsParams == "" then "/" else "/" + slugAsParams
  }

  /** The document answers to the route `slug`. */
  predicate AnswersTo(doc: VeliteDoc, slug: string) {
    DocSlug(doc.slugAsParams) == slug
  }

  /** `docs.find(...)`: the first document whose route is `slug`. */
  function FindDoc(docs: seq<VeliteDoc>, slug: string): Option<VeliteDoc> {
    if |docs| == 0 then None
    else if AnswersTo(docs[0], slug) then Some(docs[0])
    else FindDoc(docs[1..], slug)
  }

  /** Nothing is found exactly when no document answers; otherwise the first one that answers is. */
  lemma {:induction false} FindDocFirst(docs: seq<VeliteDoc>, slug: string)
    ensures var r := FindDoc(docs, slug);
      (r.None? <==> forall i :: 0 <= i < |docs| ==> !AnswersTo(docs[i], slug))
      && (r.Some? ==>
        exists i :: 0 <= i < |docs| && docs[i] == r.value && AnswersTo(docs[i], slug)
          && forall j :: 0 <= j < i ==> !AnswersTo(docs[j], slug))
  {
    if |docs| > 0 && !AnswersTo(docs[0], slug) {
      var tail := docs[1..];
      FindDocFirst(tail, slug);
      assert forall i :: 1 <= i < |docs| ==> tail[i - 1] == docs[i];
      var r := FindDoc(tail, slug);
      if r.Some? {
        var k :| 0 <= k < |tail| && tail[k] == r.value && AnswersTo(tail[k], slug)
          && forall j :: 0 <= j < k ==> !AnswersTo(tail[j], slug);
        assert docs[k + 1] == r.value && AnswersTo(docs[k + 1], slug);
        assert forall j :: 0 <= j < k + 1 ==> !AnswersTo(docs[j], slug);
      } else {
        assert forall i :: 0 <= i < |docs| ==> !AnswersTo(docs[i], slug);
      }
    } else if |docs| > 0 {
      assert docs[0] == FindDoc(docs, slug).value;
    }
  }

  /** The headings memo: none without a document or without raw Markdown. */
  function DocHeadings(doc: Option<VeliteDoc>): seq<Heading> {
    if doc.None? || !Truthy(doc.value.rawMarkdown) then []
    else Run(Outside, Split(doc.value.rawMarkdown.value, '\n'))
  }

  /** The `hasHeadings` memo. */
  function HasHeadings(doc: Option<VeliteDoc>): bool {
    if doc.None? || !Truthy(doc.value.rawMarkdown) then false
    else |Run(Outside, Split(doc.value.rawMarkdown.value, '\n'))| > 0
  }

  /** `hasHeadings` holds exactly when `headings` is non-empty; both are empty without raw Markdown. */
  lemma HasHeadingsIff(doc: Option<VeliteDoc>)
    ensures HasHeadings(doc) <==> |DocHeadings(doc)| > 0
    ensures doc.None? || !Truthy(doc.value.rawMarkdown) ==> DocHeadings(doc) == [] && !HasHeadings(doc)
  {
  }
}
