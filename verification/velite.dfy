/**
 * The document transform of the content collection (apps/web/velite.config.ts):
 * a document without a front matter title takes the text of its first `# `
 * line, or else a title made from the last segment of its slug; and
 * `slugAsParams` is the slug without its first segment.
 */
module Velite {
  import opened Wrappers
  import opened Text
  import opened Types

  // ---------------------------------------------------------------------------
  // deriveTitle
  // ---------------------------------------------------------------------------

  /** `lines.find(line => line.startsWith("# "))`. */
  function FirstHashLine(lines: seq<string>): (r: Option<string>)
    ensures r.None? <==> forall i :: 0 <= i < |lines| ==> !StartsWith(lines[i], "# ")
    ensures r.Some? ==> StartsWith(r.value, "# ") && r.value in lines
  {
    if |lines| == 0 then None
    else if StartsWith(lines[0], "# ") then Some(lines[0])
    else
      var r := FirstHashLine(lines[1..]);
      assert forall i :: 1 <= i < |lines| ==> lines[i] == lines[1..][i - 1];
      r
  }

  /** The first `# ` line is the one returned: no earlier line starts with `# `. */
  lemma {:induction false} FirstHashLineIsFirst(lines: seq<string>, i: nat)
    requires i < |lines| && StartsWith(lines[i], "# ")
    requires forall j :: 0 <= j < i ==> !StartsWith(lines[j], "# ")
    ensures FirstHashLine(lines) == Some(lines[i])
    decreases i
  {
    if i > 0 {
      FirstHashLineIsFirst(lines[1..], i - 1);
    }
  }

  /** `line.replace(/^#\s+/, "").trim()` on a line starting with `# `. */
  function HeadingTitle(line: string): string
    requires StartsWith(line, "# ")
  {
    assert line[..2] == "# ";
    Trim(line[1 + SpaceRun(line, 1)..])
  }

  /** Dropping the whitespace after `#` first changes nothing: the title is the trimmed rest of the line. */
  lemma HeadingTitleIsTrimmedRest(line: string)
    requires StartsWith(line, "# ")
    ensures HeadingTitle(line) == Trim(line[1..])
  {
    assert line[..2] == "# ";
    var n := SpaceRun(line, 1);
    TrimStartDrops(line[1..], n);
    assert line[1..][n..] == line[1 + n..];
  }

  /** Dropping a prefix of whitespace does not change `trimStart`. */
  lemma {:induction false} TrimStartDrops(s: string, n: nat)
    requires n <= |s| && forall k :: 0 <= k < n ==> IsSpace(s[k])
    ensures TrimStart(s[n..]) == TrimStart(s)
    decreases n
  {
    if n > 0 {
      assert s[1..][n - 1..] == s[n..];
      TrimStartDrops(s[1..], n - 1);
    }
  }

  /** `word.charAt(0).toUpperCase() + word.slice(1)`. */
  function Capitalise(word: string): (r: string)
    ensures |r| == |word|
  {
    if word == "" then "" else [UpperChar(word[0])] + word[1..]
  }

  /** `words.map(Capitalise)`. */
  function CapitaliseAll(words: seq<string>): (r: seq<string>)
    ensures |r| == |words|
  {
    if |words| == 0 then [] else [Capitalise(words[0])] + CapitaliseAll(words[1..])
  }

  /** `s.split(" ").map(Capitalise).join(" ")`. */
  function TitleCase(s: string): string {
    Join(CapitaliseAll(Split(s, ' ')), " ")
  }

  /** Upper-case the characters at the start of `s` and after each space; keep the others. */
  function CapitaliseAfterSpaces(s: string): (r: string)
    ensures |r| == |s|
  {
    seq(|s|, i requires 0 <= i < |s| => if i == 0 || s[i - 1] == ' ' then UpperChar(s[i]) else s[i])
  }

  /** A single word is capitalised as a whole. */
  lemma TitleCaseOneWord(w: string)
    requires ' ' !in w
    ensures TitleCase(w) == Capitalise(w)
  {
    SplitWithout(w, ' ');
  }

  /** On a word without spaces, capitalising it and upper-casing after spaces agree. */
  lemma CapitaliseWord(w: string)
    requires ' ' !in w
    ensures Capitalise(w) == CapitaliseAfterSpaces(w)
  {
    forall j | 0 <= j < |w| ensures w[j] != ' ' {
      assert w[j] in w;
    }
  }

  /** Upper-casing after spaces works word by word. */
  lemma CapitaliseAfterSpacesConcat(a: string, b: string)
    requires ' ' !in a
    ensures CapitaliseAfterSpaces(a + " " + b) == CapitaliseAfterSpaces(a) + " " + CapitaliseAfterSpaces(b)
  {
    var s := a + " " + b;
    var x := CapitaliseAfterSpaces(s);
    var y := CapitaliseAfterSpaces(a) + " " + CapitaliseAfterSpaces(b);
    forall i | 0 <= i < |s| ensures x[i] == y[i] {
      if i < |a| {
        assert s[i] == a[i];
        if i > 0 { assert s[i - 1] == a[i - 1]; }
      } else if i > |a| {
        assert s[i] == b[i - |a| - 1];
        if i > |a| + 1 { assert s[i - 1] == b[i - |a| - 2]; }
      }
    }
  }

  /** The first word and the rest are title-cased separately. */
  lemma TitleCaseSplit(s: string, k: nat)
    requires k == IndexOfChar(s, ' ')
    ensures TitleCase(s) == Capitalise(s[..k]) + " " + TitleCase(s[k + 1..])
  {
    var words := Split(s, ' ');
    var tail := Split(s[k + 1..], ' ');
    assert words == [s[..k]] + tail;
    assert words[1..] == tail;
    JoinAppend([Capitalise(s[..k])], CapitaliseAll(tail), " ");
  }

  /** The split/map/join chain upper-cases exactly the first character of each space-separated word. */
  lemma {:induction false} TitleCaseChars(s: string)
    ensures TitleCase(s) == CapitaliseAfterSpaces(s)
    decreases |s|
  {
    var k := IndexOfChar(s, ' ');
    if k == -1 {
      TitleCaseOneWord(s);
      CapitaliseWord(s);
    } else {
      var rest := s[k + 1..];
      TitleCaseChars(rest);
      TitleCaseSplit(s, k);
      CapitaliseWord(s[..k]);
      CapitaliseAfterSpacesConcat(s[..k], rest);
      assert s == s[..k] + " " + rest;
    }
  }

  /** `fallback.replace(/[-_]/g, " ")`. */
  function DashesToSpaces(s: string): (r: string)
    ensures |r| == |s| && '-' !in r && '_' !in r
    ensures forall i :: 0 <= i < |s| ==> r[i] == (if s[i] == '-' || s[i] == '_' then ' ' else s[i])
  {
    seq(|s|, i requires 0 <= i < |s| => if s[i] == '-' || s[i] == '_' then ' ' else s[i])
  }

  /** The last `/`-segment of the slug, or `"Untitled"` when it is empty. */
  function LastSegment(slug: string): (r: string)
    ensures r != "" && '/' !in r
  {
    var piece := Last(Split(slug, '/'));
    if piece == "" then "Untitled" else piece
  }

  /** The title made from the slug when the content has no `# ` line. */
  function FallbackTitle(slug: string): string {
    TitleCase(DashesToSpaces(LastSegment(slug)))
  }

  /** `deriveTitle(content, slug)`. */
  function DeriveTitle(content: string, slug: string): string {
    match FirstHashLine(Split(content, '\n'))
    case Some(line) => HeadingTitle(line)
    case None => FallbackTitle(slug)
  }

  /** A content line starting with `# `, with no such line before it, supplies the title. */
  lemma TitleFromHeading(content: string, slug: string, i: nat)
    requires var lines := Split(content, '\n');
      i < |lines| && StartsWith(lines[i], "# ")
      && forall j :: 0 <= j < i ==> !StartsWith(lines[j], "# ")
    ensures DeriveTitle(content, slug) == Trim(Split(content, '\n')[i][1..])
  {
    var lines := Split(content, '\n');
    FirstHashLineIsFirst(lines, i);
    HeadingTitleIsTrimmedRest(lines[i]);
  }

  /** Lines such as `## x` or `#x` never supply the title: without a `# ` line the slug decides. */
  lemma TitleFromSlug(content: string, slug: string)
    requires forall l :: l in Split(content, '\n') ==> !StartsWith(l, "# ")
    ensures DeriveTitle(content, slug) == FallbackTitle(slug)
  {
  }

  /** A one-line content whose second character is not a space, as in `## x` or `#x`, does not supply the title. */
  lemma NonTitleLine(line: string, slug: string)
    requires '\n' !in line && |line| >= 2 && line[1] != ' '
    ensures DeriveTitle(line, slug) == FallbackTitle(slug)
  {
    SplitWithout(line, '\n');
    assert !StartsWith(line, "# ") by {
      assert line[..2][1] == line[1];
    }
    assert FirstHashLine([line]).None?;
  }

  /**
   * The fallback title: the slug's last segment with `-` and `_` turned
   * into spaces and each word's first letter upper-cased; no `-` or `_` is
   * left and no other character changes.
   */
  lemma FallbackTitleChars(slug: string)
    ensures var seg := LastSegment(slug); var t := FallbackTitle(slug);
      |t| == |seg| && '-' !in t && '_' !in t
      && forall i :: 0 <= i < |seg| ==>
        t[i] == (if seg[i] == '-' || seg[i] == '_' then ' '
                 else if i == 0 || seg[i - 1] == '-' || seg[i - 1] == '_' || seg[i - 1] == ' ' then UpperChar(seg[i])
                 else seg[i])
  {
    var d := DashesToSpaces(LastSegment(slug));
    TitleCaseChars(d);
  }

  /** An empty last segment gives `"Untitled"`. */
  lemma EmptySegmentUntitled(slug: string)
    requires EndsWith(slug, "/") || slug == ""
    ensures FallbackTitle(slug) == "Untitled"
  {
    if slug != "" {
      assert slug[|slug| - 1] == slug[|slug| - 1..][0] == '/';
      SplitEndsEmpty(slug, '/');
    } else {
      assert Split(slug, '/') == [""];
    }
    UntitledKept();
  }

  lemma UntitledKept()
    ensures TitleCase(DashesToSpaces("Untitled")) == "Untitled"
  {
    assert DashesToSpaces("Untitled") == "Untitled";
    assert ' ' !in "Untitled";
    TitleCaseOneWord("Untitled");
  }

  // ---------------------------------------------------------------------------
  // The transform
  // ---------------------------------------------------------------------------

  /** `slug.split("/").slice(1).join("/")`. */
  function SlugAsParams(slug: string): string {
    var parts := Split(slug, '/');
    Join(parts[1..], "/")
  }

  /** `slugAsParams` is everything after the slug's first `/`, and empty when there is none. */
  lemma SlugAsParamsDropsFirstSegment(slug: string)
    ensures '/' !in slug ==> SlugAsParams(slug) == ""
    ensures '/' in slug ==> SlugAsParams(slug) == slug[IndexOfChar(slug, '/') + 1..]
  {
    SplitStep(slug, '/');
    if '/' in slug {
      JoinSplitTail(slug, '/');
    } else {
      assert Split(slug, '/')[1..] == [];
    }
  }

  /** The fields the schema delivers before the transform. */
  datatype DocData = DocData(
    slug: string,
    title: Option<string>,
    description: Option<string>,
    rawMarkdown: string,
    content: string)

  /** The collection's `transform`: an explicit title wins, else the derived one. */
  function Transform(data: DocData): (r: VeliteDoc)
    ensures data.title.Some? ==> r.title == data.title.value
    ensures data.title.None? ==> r.title == DeriveTitle(data.rawMarkdown, data.slug)
    ensures r.slug == data.slug && r.slugAsParams == SlugAsParams(data.slug)
    ensures r.description == data.description && r.rawMarkdown == Some(data.rawMarkdown)
  {
    var title := if data.title.Some? then data.title.value else DeriveTitle(data.rawMarkdown, data.slug);
    VeliteDoc(data.slug, SlugAsParams(data.slug), title, data.description, Some(data.rawMarkdown), data.content)
  }
}
