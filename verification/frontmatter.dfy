/**
 * Front matter handling of the documentation build
 * (packages/web-runtime/scripts/prepare-docs.ts): `stripFrontmatter`, which
 * drops a leading `---` block, and `extractFrontmatterField`, which reads one
 * `field: value` line out of that block with the multiline pattern
 * `(^|\n)\s*FIELD\s*:\s*(.+)\s*$`.
 *
 * The pattern is modelled by hand from its backtracking behaviour: `FieldAt`
 * is the match attempt at one start position, `FirstField` the leftmost
 * successful attempt, and the captured group is the raw value before `trim`.
 */
module Frontmatter {
  import opened Wrappers
  import opened Text

  /** The opening marker of a front matter block. */
  const Fence := "---"

  /** The closing marker: a line that starts with `---`. */
  const Closing := "\n---"

  /** The two fields the build reads. */
  datatype Field = Title | Description

  function Name(f: Field): string {
    match f
    case Title => "title"
    case Description => "description"
  }

  // ---------------------------------------------------------------------------
  // stripFrontmatter
  // ---------------------------------------------------------------------------

  /**
   * `stripFrontmatter`: content that opens a `---` block closed by a later
   * `\n---` loses everything up to the end of that marker and the whitespace
   * after it; any other content is returned unchanged.
   */
  function StripFrontmatter(content: string): (r: string)
    ensures EndsWith(content, r)
    ensures !StartsWith(content, Fence) ==> r == content
    ensures IndexOfFrom(content, Closing, |Fence|) == -1 ==> r == content
    ensures r != content ==> r == [] || !IsSpace(r[0])
  {
    if !StartsWith(content, Fence) then content
    else
      var endIndex := IndexOfFrom(content, Closing, |Fence|);
      if endIndex == -1 then content
      else
        var body := TrimStart(content[endIndex + |Closing|..]);
        assert content[|content| - |body|..] == content[endIndex + |Closing|..][|content| - endIndex - |Closing| - |body|..];
        body
  }

  // ---------------------------------------------------------------------------
  // The field pattern
  // ---------------------------------------------------------------------------

  /**
   * The start positions where `(^|\n)` succeeds in multiline mode: the start of
   * the text, just after a line terminator, or on a `\n`. In the last case the
   * alternative consumes the `\n`, which the following `\s*` would have taken
   * anyway, so both alternatives lead to the same field position.
   */
  predicate LineStart(fm: string, s: nat)
    requires s <= |fm|
  {
    s == 0 || IsLineTerminator(fm[s - 1]) || (s < |fm| && fm[s] == '\n')
  }

  /**
   * The last position in `[lo, hi)` holding a character `.` can match, or -1.
   */
  function LastLineChar(fm: string, lo: nat, hi: nat): (r: int)
    requires lo <= hi <= |fm|
    decreases hi - lo
    ensures r == -1 || (lo <= r < hi && !IsLineTerminator(fm[r]))
    ensures r == -1 ==> forall k :: lo <= k < hi ==> IsLineTerminator(fm[k])
    ensures r != -1 ==> forall k :: r < k < hi ==> IsLineTerminator(fm[k])
  {
    if hi == lo then -1
    else if !IsLineTerminator(fm[hi - 1]) then hi - 1
    else LastLineChar(fm, lo, hi - 1)
  }

  /**
   * `\s*(.+)\s*$` from `pos`: the captured `(.+)`. The greedy `\s*` first takes
   * the whole whitespace run; when a character follows it, `.+` takes the rest
   * of that line and the trailing `\s*$` always succeeds (at the end of the
   * text or before a line terminator). When only whitespace is left, `\s*`
   * gives back characters until `.+` can take one that is not a line
   * terminator, and there is no match if there is none.
   */
  function ValueAt(fm: string, pos: nat): (r: Option<string>)
    requires pos <= |fm|
    ensures r.Some? ==> |r.value| > 0
    ensures r.Some? ==> forall k :: 0 <= k < |r.value| ==> !IsLineTerminator(r.value[k])
    ensures r.None? <==> forall k :: pos <= k < |fm| ==> IsLineTerminator(fm[k])
  {
    var w := SpaceRun(fm, pos);
    if pos + w < |fm| then
      var j := pos + w;
      Some(fm[j..j + LineRunFrom(fm, j)])
    else
      var j := LastLineChar(fm, pos, |fm|);
      if j == -1 then None
      else Some(fm[j..j + LineRunFrom(fm, j)])
  }

  /**
   * The match attempt of the field pattern at start position `s`: the line
   * start, the whitespace run, the field name, the whitespace run, the colon
   * and then the value. The whitespace runs before the name and before the
   * colon are taken whole because the name and the colon are not whitespace.
   */
  function FieldAt(fm: string, name: string, s: nat): (r: Option<string>)
    requires s <= |fm|
    ensures r.Some? ==> |r.value| > 0
  {
    if !LineStart(fm, s) then None
    else
      var e := s + SpaceRun(fm, s);
      if !OccursAt(fm, name, e) then None
      else
        var c := e + |name| + SpaceRun(fm, e + |name|);
        if c >= |fm| || fm[c] != ':' then None
        else ValueAt(fm, c + 1)
  }

  /** `fm.match(pattern)`: the leftmost start position at or after `s` where the attempt succeeds. */
  function FirstField(fm: string, name: string, s: nat): (r: Option<string>)
    decreases |fm| + 1 - s
    ensures r.Some? ==> exists p :: s <= p <= |fm| && FieldAt(fm, name, p) == r
    ensures r.None? <==> forall p :: s <= p <= |fm| ==> FieldAt(fm, name, p).None?
  {
    if s > |fm| then None
    else match FieldAt(fm, name, s)
      case Some(g) => Some(g)
      case None =>
        FirstField(fm, name, s + 1)
  }

  // ---------------------------------------------------------------------------
  // The value clean-up and extractFrontmatterField
  // ---------------------------------------------------------------------------

  predicate IsQuote(c: char) { c == '"' || c == '\'' }

  /**
   * A value that starts and ends with the same quote character loses its
   * first and last character (`slice(1, -1)`, which is empty for a lone quote).
   */
  function Unquote(v: string): (r: string)
    ensures |r| <= |v|
    ensures |v| > 0 && IsQuote(v[0]) && v[|v| - 1] == v[0] ==> |r| + 2 == |v| || (|v| == 1 && r == [])
    ensures !(|v| > 0 && IsQuote(v[0]) && v[|v| - 1] == v[0]) ==> r == v
  {
    if (StartsWith(v, "\"") && EndsWith(v, "\"")) || (StartsWith(v, "'") && EndsWith(v, "'")) then
      if |v| >= 2 then v[1..|v| - 1] else []
    else v
  }

  /** `match[2].trim()`, unquoted, then `value || null`. */
  function Clean(raw: string): (r: Option<string>)
    ensures r.Some? ==> r.value != []
    ensures r.None? <==> Unquote(Trim(raw)) == []
  {
    var v := Unquote(Trim(raw));
    if v == [] then None else Some(v)
  }

  /** The value of `field` in the front matter text `fm`, or none. */
  function FieldValue(fm: string, field: Field): (r: Option<string>)
    ensures r.Some? ==> r.value != []
    ensures r.Some? ==> exists p :: 0 <= p <= |fm| && FieldAt(fm, Name(field), p).Some?
  {
    match FirstField(fm, Name(field), 0)
    case None => None
    case Some(raw) => Clean(raw)
  }

  /**
   * `extractFrontmatterField`: the field is looked up between the opening
   * `---` and the first closing `\n---` after it; content without such a
   * block has no fields.
   */
  function ExtractFrontmatterField(content: string, field: Field): (r: Option<string>)
    ensures r.Some? ==> r.value != []
    ensures !StartsWith(content, Fence) ==> r.None?
    ensures IndexOfFrom(content, Closing, |Fence|) == -1 ==> r.None?
  {
    if !StartsWith(content, Fence) then None
    else
      var endIndex := IndexOfFrom(content, Closing, |Fence|);
      if endIndex == -1 then None
      else FieldValue(content[|Fence|..endIndex], field)
  }

  // ---------------------------------------------------------------------------
  // Properties
  // ---------------------------------------------------------------------------

  /** `indexOf` finds an occurrence that nothing before it (from `from`) precedes. */
  lemma IndexOfFromAt(s: string, t: string, from: nat, k: nat)
    requires from <= k && OccursAt(s, t, k)
    requires forall j :: from <= j < k ==> !OccursAt(s, t, j)
    ensures IndexOfFrom(s, t, from) == k
  {
  }

  /**
   * A block whose text `fm` contains no closing marker of its own: both
   * functions split the content at the marker that ends `fm`. Stripping
   * leaves the body without its leading whitespace, and fields are read
   * from `fm` alone.
   */
  lemma ClosedBlock(fm: string, body: string, field: Field)
    requires forall k :: 0 <= k < |fm| ==> !OccursAt(fm + Closing, Closing, k)
    ensures StripFrontmatter(Fence + fm + Closing + body) == TrimStart(body)
    ensures ExtractFrontmatterField(Fence + fm + Closing + body, field) == FieldValue(fm, field)
  {
    var content := Fence + fm + Closing + body;
    assert content[|Fence|..] == fm + Closing + body;
    assert StartsWith(content, Fence);
    forall j | |Fence| <= j < |Fence| + |fm|
      ensures !OccursAt(content, Closing, j)
    {
      assert !OccursAt(fm + Closing, Closing, j - |Fence|);
      assert content[j..j + |Closing|] == (fm + Closing)[j - |Fence|..j - |Fence| + |Closing|];
    }
    assert content[|Fence| + |fm|..|Fence| + |fm| + |Closing|] == Closing;
    IndexOfFromAt(content, Closing, |Fence|, |Fence| + |fm|);
    assert content[|Fence| + |fm| + |Closing|..] == body;
    assert content[|Fence|..|Fence| + |fm|] == fm;
  }

  /** `LineRunFrom` over a stretch free of line terminators that ends at a terminator or the end. */
  lemma {:induction false} LineRunOver(s: string, p: nat, n: nat)
    requires p + n <= |s|
    requires forall k :: p <= k < p + n ==> !IsLineTerminator(s[k])
    requires p + n == |s| || IsLineTerminator(s[p + n])
    ensures LineRunFrom(s, p) == n
    decreases n
  {
    if n > 0 {
      LineRunOver(s, p + 1, n - 1);
    }
  }

  /** A field name starts with a letter, so it is neither whitespace nor a line terminator. */
  lemma NameShape(f: Field)
    ensures |Name(f)| >= 5 && !IsSpace(Name(f)[0]) && Name(f)[1] != '-'
    ensures forall k :: 0 <= k < |Name(f)| ==> !IsLineTerminator(Name(f)[k]) && Name(f)[k] != ':'
  {
  }

  /**
   * The pattern on a text laid out as `\n`, the field name, `:`, one
   * whitespace character (a blank, or a line break), a value
   * `raw` that starts with a non-blank character, and then the end of the
   * text or a line terminator: it matches at the start and captures `raw`.
   */
  lemma FieldLineLayout(fm: string, f: Field, raw: string)
    requires |raw| > 0 && !IsSpace(raw[0])
    requires forall k :: 0 <= k < |raw| ==> !IsLineTerminator(raw[k])
    requires 3 + |Name(f)| + |raw| <= |fm|
    requires fm[0] == '\n' && fm[1..1 + |Name(f)|] == Name(f)
    requires fm[1 + |Name(f)|] == ':' && IsSpace(fm[2 + |Name(f)|])
    requires fm[3 + |Name(f)|..3 + |Name(f)| + |raw|] == raw
    requires 3 + |Name(f)| + |raw| == |fm| || IsLineTerminator(fm[3 + |Name(f)| + |raw|])
    ensures FieldAt(fm, Name(f), 0) == Some(raw)
  {
    FieldHead(fm, f);
    ValueAfterGap(fm, 2 + |Name(f)|, raw);
  }

  /** A field name right after a leading `\n` and right before the colon: the attempt at 0 reads the value after the colon. */
  lemma FieldHead(fm: string, f: Field)
    requires 2 + |Name(f)| <= |fm|
    requires fm[0] == '\n' && fm[1..1 + |Name(f)|] == Name(f) && fm[1 + |Name(f)|] == ':'
    ensures FieldAt(fm, Name(f), 0) == ValueAt(fm, 2 + |Name(f)|)
  {
    var name := Name(f);
    NameShape(f);
    var n := |name|;
    assert fm[1] == fm[1..1 + n][0];
    assert SpaceRun(fm, 1) == 0;
    assert SpaceRun(fm, 0) == 1;
    assert SpaceRun(fm, 1 + n) == 0;
  }

  /** One whitespace character, then a line that starts with a non-blank character: the value is that line. */
  lemma ValueAfterGap(fm: string, pos: nat, raw: string)
    requires pos + 1 + |raw| <= |fm| && IsSpace(fm[pos])
    requires |raw| > 0 && !IsSpace(raw[0])
    requires forall k :: 0 <= k < |raw| ==> !IsLineTerminator(raw[k])
    requires fm[pos + 1..pos + 1 + |raw|] == raw
    requires pos + 1 + |raw| == |fm| || IsLineTerminator(fm[pos + 1 + |raw|])
    ensures ValueAt(fm, pos) == Some(raw)
  {
    var p := pos + 1;
    assert fm[p] == fm[p..p + |raw|][0];
    assert SpaceRun(fm, p) == 0;
    assert SpaceRun(fm, pos) == 1;
    forall k | p <= k < p + |raw|
      ensures !IsLineTerminator(fm[k])
    {
      assert fm[k] == fm[p..p + |raw|][k - p];
    }
    LineRunOver(fm, p, |raw|);
  }

  /** Where the pieces of `"\n" + name + gap + raw + tail` sit, for a two-character `gap`. */
  lemma LineLayout(name: string, gap: string, raw: string, tail: string)
    requires |gap| == 2
    ensures var fm := "\n" + name + gap + raw + tail;
      && |fm| == 3 + |name| + |raw| + |tail|
      && fm[0] == '\n' && fm[1..1 + |name|] == name
      && fm[1 + |name|] == gap[0] && fm[2 + |name|] == gap[1]
      && fm[3 + |name|..3 + |name| + |raw|] == raw
      && fm[3 + |name| + |raw|..] == tail
  {
    var fm := "\n" + name + gap + raw + tail;
    assert fm == "\n" + (name + (gap + (raw + tail)));
    assert fm[1..] == name + (gap + (raw + tail));
    assert fm[1 + |name|..] == gap + (raw + tail);
    assert fm[3 + |name|..] == raw + tail;
  }

  /** The usual layout: a line `FIELD: raw` right after the opening marker, ending at `tail`. */
  lemma FieldLineMatches(f: Field, raw: string, tail: string)
    requires |raw| > 0 && !IsSpace(raw[0])
    requires forall k :: 0 <= k < |raw| ==> !IsLineTerminator(raw[k])
    requires tail == [] || IsLineTerminator(tail[0])
    ensures FirstField("\n" + Name(f) + ": " + raw + tail, Name(f), 0) == Some(raw)
  {
    var fm := "\n" + Name(f) + ": " + raw + tail;
    LineLayout(Name(f), ": ", raw, tail);
    var e := 3 + |Name(f)| + |raw|;
    assert e < |fm| ==> fm[e] == fm[e..][0];
    FieldLineLayout(fm, f, raw);
  }

  /**
   * The `\s*` after the colon also crosses line breaks: a `FIELD:` line with
   * nothing after the colon takes the whole next line as its value, even
   * when that line is another field.
   */
  lemma EmptyFieldTakesNextLine(f: Field, raw: string, tail: string)
    requires |raw| > 0 && !IsSpace(raw[0])
    requires forall k :: 0 <= k < |raw| ==> !IsLineTerminator(raw[k])
    requires tail == [] || IsLineTerminator(tail[0])
    ensures FirstField("\n" + Name(f) + ":\n" + raw + tail, Name(f), 0) == Some(raw)
  {
    var fm := "\n" + Name(f) + ":\n" + raw + tail;
    LineLayout(Name(f), ":\n", raw, tail);
    var e := 3 + |Name(f)| + |raw|;
    assert e < |fm| ==> fm[e] == fm[e..][0];
    FieldLineLayout(fm, f, raw);
  }

  /** No closing marker starts inside `"\n" + FIELD + ": " + raw` when `raw` holds no line terminator. */
  lemma FieldLineHasNoClosing(f: Field, raw: string)
    requires forall k :: 0 <= k < |raw| ==> !IsLineTerminator(raw[k])
    ensures forall k :: 0 <= k < |"\n" + Name(f) + ": " + raw| ==>
      !OccursAt("\n" + Name(f) + ": " + raw + Closing, Closing, k)
  {
    NameShape(f);
    var fm := "\n" + Name(f) + ": " + raw;
    var s := fm + Closing;
    forall k | 0 <= k < |fm|
      ensures !OccursAt(s, Closing, k)
    {
      if k == 0 {
        assert s[1] == Name(f)[0];
        assert k + |Closing| <= |s| ==> s[k..k + |Closing|][1] == s[1];
      } else if k <= |Name(f)| {
        assert s[k] == Name(f)[k - 1];
        assert !IsLineTerminator(s[k]);
        assert k + |Closing| <= |s| ==> s[k..k + |Closing|][0] == s[k];
      } else if k < |Name(f)| + 3 {
        assert s[k] == ": "[k - |Name(f)| - 1];
        assert k + |Closing| <= |s| ==> s[k..k + |Closing|][0] == s[k];
      } else {
        assert s[k] == raw[k - |Name(f)| - 3];
        assert !IsLineTerminator(s[k]);
        assert k + |Closing| <= |s| ==> s[k..k + |Closing|][0] == s[k];
      }
    }
  }

  /**
   * A document opening with `---`, a `FIELD: raw` line and the closing
   * `---`: the field's value is `raw` cleaned up, and stripping leaves the
   * body without its leading whitespace.
   */
  lemma SingleFieldDocument(f: Field, raw: string, body: string)
    requires |raw| > 0 && !IsSpace(raw[0])
    requires forall k :: 0 <= k < |raw| ==> !IsLineTerminator(raw[k])
    ensures ExtractFrontmatterField(Fence + ("\n" + Name(f) + ": " + raw) + Closing + body, f) == Clean(raw)
    ensures StripFrontmatter(Fence + ("\n" + Name(f) + ": " + raw) + Closing + body) == TrimStart(body)
  {
    var fm := "\n" + Name(f) + ": " + raw;
    FieldLineHasNoClosing(f, raw);
    ClosedBlock(fm, body, f);
    FieldLineMatches(f, raw, []);
    assert fm + [] == fm;
  }

  /** Trimming a whitespace-only text leaves nothing. */
  lemma {:induction false} TrimBlank(s: string)
    requires forall k :: 0 <= k < |s| ==> IsSpace(s[k])
    ensures TrimStart(s) == [] && Trim(s) == []
    decreases |s|
  {
    if |s| > 0 {
      assert forall k :: 0 <= k < |s| - 1 ==> s[1..][k] == s[k + 1];
      TrimBlank(s[1..]);
    }
  }

  /** A value with no whitespace at either end is left alone by `Trim`. */
  lemma TrimUntouched(v: string)
    requires |v| > 0 && !IsSpace(v[0]) && !IsSpace(v[|v| - 1])
    ensures Trim(v) == v
  {
    assert TrimStart(v) == v;
  }

  /** A whitespace-only capture cleans up to no value. */
  lemma BlankIsNull(raw: string)
    requires forall k :: 0 <= k < |raw| ==> IsSpace(raw[k])
    ensures Clean(raw).None?
  {
    TrimBlank(raw);
  }

  /** A plain value (no surrounding quotes or whitespace) is returned as it is. */
  lemma PlainValue(v: string)
    requires |v| > 0 && !IsSpace(v[0]) && !IsSpace(v[|v| - 1])
    requires !IsQuote(v[0]) || v[|v| - 1] != v[0]
    ensures Clean(v) == Some(v)
  {
    TrimUntouched(v);
  }

  /** A value wrapped in matching quotes loses them, and an empty quoted value is no value. */
  lemma QuotedValue(q: char, x: string)
    requires IsQuote(q)
    ensures Clean([q] + x + [q]) == if x == [] then None else Some(x)
  {
    var v := [q] + x + [q];
    TrimUntouched(v);
    assert v[1..|v| - 1] == x;
  }

  /** `title: "Getting started"` in the front matter gives the unquoted title. */
  lemma QuotedTitle(x: string, body: string)
    requires |x| > 0
    requires forall k :: 0 <= k < |x| ==> !IsLineTerminator(x[k])
    ensures ExtractFrontmatterField(Fence + ("\n" + Name(Title) + ": " + ("\"" + x + "\"")) + Closing + body, Title) == Some(x)
  {
    var raw := "\"" + x + "\"";
    forall k | 0 <= k < |raw|
      ensures !IsLineTerminator(raw[k])
    {
      if 0 < k < |raw| - 1 {
        assert raw[k] == x[k - 1];
      }
    }
    SingleFieldDocument(Title, raw, body);
    QuotedValue('"', x);
    assert raw == ['"'] + x + ['"'];
  }

  /** A `FIELD: ` line holding only a blank at the end of the text captures the blank. */
  lemma BlankLineLayout(fm: string, f: Field)
    requires |fm| == 3 + |Name(f)|
    requires fm[0] == '\n' && fm[1..1 + |Name(f)|] == Name(f)
    requires fm[1 + |Name(f)|] == ':' && fm[2 + |Name(f)|] == ' '
    ensures FieldAt(fm, Name(f), 0) == Some(" ")
  {
    var n := |Name(f)|;
    NameShape(f);
    assert fm[1] == fm[1..1 + n][0];
    assert SpaceRun(fm, 1) == 0;
    assert SpaceRun(fm, 0) == 1;
    assert SpaceRun(fm, 1 + n) == 0;
    assert SpaceRun(fm, 2 + n) == 1;
    assert LastLineChar(fm, 2 + n, 3 + n) == 2 + n;
    assert LineRunFrom(fm, 2 + n) == 1;
    assert fm[2 + n..3 + n] == " ";
  }

  /** A `FIELD: ` line holding only a blank gives no value. */
  lemma BlankFieldValue(f: Field)
    ensures FieldValue("\n" + Name(f) + ": ", f).None?
  {
    var fm := "\n" + Name(f) + ": ";
    LineLayout(Name(f), ": ", [], []);
    assert fm + [] + [] == fm;
    BlankLineLayout(fm, f);
    BlankIsNull(" ");
  }

  /** `FIELD:` followed only by blanks before the closing marker gives no value. */
  lemma BlankField(f: Field, body: string)
    ensures ExtractFrontmatterField(Fence + ("\n" + Name(f) + ": ") + Closing + body, f).None?
  {
    var fm := "\n" + Name(f) + ": ";
    assert fm + [] == fm;
    FieldLineHasNoClosing(f, []);
    ClosedBlock(fm, body, f);
    BlankFieldValue(f);
  }
}
