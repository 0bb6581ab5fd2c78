/**
 * The client-side search hook (packages/web-runtime/src/gittydocs/hooks/use-flex-search.ts):
 * the escape step, the excerpt highlighting and the assembly of results.
 * The full-text index itself is a library and is not modelled: the ids it
 * returns for a query arrive as the parameter `hits`. Highlighting builds a
 * regular expression from the query; it is modelled for queries read
 * literally, matched without regard to ASCII letter case.
 */
module FlexSearch {
  import opened Wrappers
  import opened Text

  // ---------------------------------------------------------------------------
  // The escape step of `search`
  // ---------------------------------------------------------------------------

  /** The characters `search` escapes before querying the index. */
  predicate IsRegexSpecial(c: char) {
    c == '.' || c == '*' || c == '+' || c == '?' || c == '^' || c == '$' || c == '{' || c == '}'
    || c == '(' || c == ')' || c == '|' || c == '[' || c == ']' || c == '\\'
  }

  /** `query.replace(/[.*+?^${}()|[\]\\]/g, "\\$&")`. */
  function Escape(q: string): (r: string)
    ensures |r| >= |q|
    ensures r == [] <==> q == []
  {
    if |q| == 0 then []
    else (if IsRegexSpecial(q[0]) then ['\\', q[0]] else [q[0]]) + Escape(q[1..])
  }

  /** Reading an escaped string back: a backslash stands for the character after it. */
  function Unescape(s: string): string {
    if |s| == 0 then []
    else if s[0] == '\\' && |s| >= 2 then [s[1]] + Unescape(s[2..])
    else [s[0]] + Unescape(s[1..])
  }

  /** Escaping loses nothing: reading the escaped query back gives the query. */
  lemma {:induction false} UnescapeEscape(q: string)
    ensures Unescape(Escape(q)) == q
  {
    if |q| > 0 {
      UnescapeEscape(q[1..]);
      var head: string := if IsRegexSpecial(q[0]) then ['\\', q[0]] else [q[0]];
      var e := head + Escape(q[1..]);
      if IsRegexSpecial(q[0]) {
        assert e[0] == '\\' && e[1] == q[0] && e[2..] == Escape(q[1..]);
      } else {
        assert q[0] != '\\';
        assert e[0] == q[0] && e[1..] == Escape(q[1..]);
      }
    }
  }

  /** A query without special characters is passed on unchanged. */
  lemma {:induction false} EscapePlain(q: string)
    requires forall k :: 0 <= k < |q| ==> !IsRegexSpecial(q[k])
    ensures Escape(q) == q
  {
    if |q| > 0 {
      EscapePlain(q[1..]);
      assert q == [q[0]] + q[1..];
    }
  }

  /** Every special character gets exactly one backslash in front of it. */
  lemma EscapeOne(c: char)
    ensures Escape([c]) == if IsRegexSpecial(c) then ['\\', c] else [c]
  {
    assert [c][1..] == [];
  }

  // ---------------------------------------------------------------------------
  // Case-insensitive literal matching
  // ---------------------------------------------------------------------------

  /** `a` and `b` spell the same, letter case aside. */
  predicate SameFolded(a: string, b: string) {
    |a| == |b| && (|a| == 0 || (LowerChar(a[0]) == LowerChar(b[0]) && SameFolded(a[1..], b[1..])))
  }

  /** The query occurs at `j`, letter case aside. */
  predicate MatchAt(text: string, q: string, j: int) {
    0 <= j && j + |q| <= |text| && SameFolded(text[j..j + |q|], q)
  }

  /** What `exec` of a global regular expression finds from `lastIndex` on: the first match at or after `from`. */
  function FindFrom(text: string, q: string, from: nat): (r: Option<nat>)
    ensures r.Some? ==> from <= r.value <= |text|
    decreases |text| + 1 - from
  {
    if from > |text| then None
    else if MatchAt(text, q, from) then Some(from)
    else FindFrom(text, q, from + 1)
  }

  /** The position found is a match with none before it from `from` on; none is found only when no match follows `from`. */
  lemma {:induction false} FindFromFirst(text: string, q: string, from: nat)
    ensures var r := FindFrom(text, q, from);
      (r.Some? ==> MatchAt(text, q, r.value) && forall j :: from <= j < r.value ==> !MatchAt(text, q, j))
      && (r.None? ==> forall j :: from <= j ==> !MatchAt(text, q, j))
    decreases |text| + 1 - from
  {
    if from <= |text| && !MatchAt(text, q, from) {
      FindFromFirst(text, q, from + 1);
    }
  }

  /**
   * The first loop of `getHighlightMatches`: up to `limit` successive
   * matches, each searched from where the previous one ended.
   */
  function Positions(text: string, q: string, from: nat, limit: nat): seq<nat>
    decreases limit
  {
    if limit == 0 then []
    else match FindFrom(text, q, from)
      case None => []
      case Some(i) => [i] + Positions(text, q, i + |q|, limit - 1)
  }

  /** One round of the loop: the next match, if the limit allows one. */
  lemma PositionsStep(text: string, q: string, from: nat, limit: nat)
    ensures limit == 0 || FindFrom(text, q, from).None? ==> Positions(text, q, from, limit) == []
    ensures limit > 0 && FindFrom(text, q, from).Some? ==>
      Positions(text, q, from, limit)
        == [FindFrom(text, q, from).value] + Positions(text, q, FindFrom(text, q, from).value + |q|, limit - 1)
  {
  }

  /** The loop's state: the positions found so far, then those still to find, make up all of them. */
  predicate Collected(text: string, q: string, limit: nat, found: seq<nat>, from: nat, rest: nat) {
    found + Positions(text, q, from, rest) == Positions(text, q, 0, limit)
  }

  /** The loop's bookkeeping: taking the next match moves it from the positions still to find to those found. */
  lemma PositionsAdvance(text: string, q: string, limit: nat, found: seq<nat>, from: nat, rest: nat)
    requires rest > 0 && FindFrom(text, q, from).Some?
    requires Collected(text, q, limit, found, from, rest)
    ensures var i := FindFrom(text, q, from).value;
      Collected(text, q, limit, found + [i], i + |q|, rest - 1)
  {
    var i := FindFrom(text, q, from).value;
    PositionsStep(text, q, from, rest);
    AppendOne(found, i, Positions(text, q, i + |q|, rest - 1));
  }

  /** When no match is left to take, what was found is everything. */
  lemma PositionsDone(text: string, q: string, limit: nat, found: seq<nat>, from: nat, rest: nat)
    requires rest == 0 || FindFrom(text, q, from).None?
    requires Collected(text, q, limit, found, from, rest)
    ensures found == Positions(text, q, 0, limit)
  {
    PositionsStep(text, q, from, rest);
    assert found + [] == found;
  }

  /** The positions are at most `limit` matches at or after `from`, in text order and not overlapping. */
  lemma {:induction false} PositionsAreMatches(text: string, q: string, from: nat, limit: nat)
    ensures var p := Positions(text, q, from, limit);
      |p| <= limit
      && (forall k :: 0 <= k < |p| ==> from <= p[k] && MatchAt(text, q, p[k]))
      && (forall k :: 0 < k < |p| ==> p[k - 1] + |q| <= p[k])
    decreases limit
  {
    FindFromFirst(text, q, from);
    PositionsStep(text, q, from, limit);
    if limit > 0 && FindFrom(text, q, from).Some? {
      var i := FindFrom(text, q, from).value;
      var rest := Positions(text, q, i + |q|, limit - 1);
      PositionsAreMatches(text, q, i + |q|, limit - 1);
      var p := [i] + rest;
      forall k | 0 < k < |p| ensures p[k - 1] + |q| <= p[k] {
        if k > 1 { assert p[k - 1] == rest[k - 2] && p[k] == rest[k - 1]; }
      }
    }
  }

  /** No match lies between two successive positions. */
  lemma {:induction false} PositionsSkipNothing(text: string, q: string, from: nat, limit: nat)
    ensures var p := Positions(text, q, from, limit);
      forall k, j :: 0 < k < |p| && p[k - 1] + |q| <= j < p[k] ==> !MatchAt(text, q, j)
    decreases limit
  {
    FindFromFirst(text, q, from);
    PositionsStep(text, q, from, limit);
    if limit > 0 && FindFrom(text, q, from).Some? {
      var i := FindFrom(text, q, from).value;
      var rest := Positions(text, q, i + |q|, limit - 1);
      PositionsSkipNothing(text, q, i + |q|, limit - 1);
      PositionsFirst(text, q, i + |q|, limit - 1);
      var p := [i] + rest;
      forall k, j | 0 < k < |p| && p[k - 1] + |q| <= j < p[k] ensures !MatchAt(text, q, j) {
        if k > 1 { assert p[k - 1] == rest[k - 2] && p[k] == rest[k - 1]; }
      }
    }
  }

  /** No match lies before the first position. */
  lemma PositionsFirst(text: string, q: string, from: nat, limit: nat)
    ensures var p := Positions(text, q, from, limit);
      |p| > 0 ==> forall j :: from <= j < p[0] ==> !MatchAt(text, q, j)
  {
    FindFromFirst(text, q, from);
    PositionsStep(text, q, from, limit);
  }

  /** When fewer than `limit` positions were found, no match follows the last one. */
  lemma {:induction false} PositionsExhaust(text: string, q: string, from: nat, limit: nat)
    ensures var p := Positions(text, q, from, limit);
      (|p| == 0 && limit > 0 ==> forall j :: from <= j ==> !MatchAt(text, q, j))
      && (0 < |p| < limit ==> forall j :: p[|p| - 1] + |q| <= j ==> !MatchAt(text, q, j))
    decreases limit
  {
    FindFromFirst(text, q, from);
    PositionsStep(text, q, from, limit);
    if limit > 0 && FindFrom(text, q, from).Some? {
      var i := FindFrom(text, q, from).value;
      var rest := Positions(text, q, i + |q|, limit - 1);
      PositionsExhaust(text, q, i + |q|, limit - 1);
      var p := [i] + rest;
      if |rest| > 0 { assert p[|p| - 1] == rest[|rest| - 1]; }
    }
  }

  // ---------------------------------------------------------------------------
  // `replaceTextWithMarker`
  // ---------------------------------------------------------------------------

  const MarkOpen := "<mark>"
  const MarkClose := "</mark>"

  /**
   * `text.replace(new RegExp(match, "gi"), v => "<mark>" + v + "</mark>")`:
   * left to right, each match is wrapped in its own casing and the scan goes
   * on after it; an empty query matches before every character and at the end.
   */
  function Mark(text: string, q: string): string
    decreases |text|
  {
    if |q| == 0 then
      MarkOpen + MarkClose + (if |text| == 0 then [] else [text[0]] + Mark(text[1..], q))
    else if MatchAt(text, q, 0) then
      MarkOpen + text[..|q|] + MarkClose + Mark(text[|q|..], q)
    else if |text| == 0 then []
    else [text[0]] + Mark(text[1..], q)
  }

  /** Deleting every `<mark>` and `</mark>` tag. */
  function StripMarks(s: string): string
    decreases |s|
  {
    if |s| == 0 then []
    else if StartsWith(s, MarkOpen) then StripMarks(s[|MarkOpen|..])
    else if StartsWith(s, MarkClose) then StripMarks(s[|MarkClose|..])
    else [s[0]] + StripMarks(s[1..])
  }

  /** A string whose first character differs from a prefix's does not start with it. */
  lemma HeadBlocks(s: string, p: string)
    requires |s| > 0 && |p| > 0 && s[0] != p[0]
    ensures !StartsWith(s, p)
  {
    if |p| <= |s| {
      assert s[..|p|][0] == s[0];
    }
  }

  /** Text without `<` passes through the tag deletion untouched. */
  lemma {:induction false} StripMarksPlain(x: string, y: string)
    requires forall k :: 0 <= k < |x| ==> x[k] != '<'
    ensures StripMarks(x + y) == x + StripMarks(y)
    decreases |x|
  {
    if |x| > 0 {
      var s := x + y;
      assert s[0] == x[0] && s[1..] == x[1..] + y;
      HeadBlocks(s, MarkOpen);
      HeadBlocks(s, MarkClose);
      assert StripMarks(s) == [x[0]] + StripMarks(x[1..] + y);
      StripMarksPlain(x[1..], y);
      assert [x[0]] + (x[1..] + StripMarks(y)) == x + StripMarks(y);
    } else {
      assert x + y == y;
    }
  }

  lemma StripOpen(y: string)
    ensures StripMarks(MarkOpen + y) == StripMarks(y)
  {
    assert (MarkOpen + y)[|MarkOpen|..] == y;
  }

  lemma StripClose(y: string)
    ensures StripMarks(MarkClose + y) == StripMarks(y)
  {
    assert (MarkClose + y)[..|MarkOpen|][1] == '/' != MarkOpen[1];
    assert (MarkClose + y)[|MarkClose|..] == y;
  }

  /** A character without `<` in front of marked text survives the tag deletion. */
  lemma StripMarksHead(c: char, rest: string, r: string)
    requires c != '<' && StripMarks(rest) == r
    ensures StripMarks([c] + rest) == [c] + r
  {
    StripMarksPlain([c], rest);
  }

  /** The empty query's step: an empty mark pair, then the first character. */
  lemma StripMarkEmptyQuery(text: string, q: string)
    requires |q| == 0 && (|text| > 0 ==> text[0] != '<')
    requires |text| > 0 ==> StripMarks(Mark(text[1..], q)) == text[1..]
    ensures StripMarks(Mark(text, q)) == text
  {
    var tail := if |text| == 0 then [] else [text[0]] + Mark(text[1..], q);
    assert Mark(text, q) == MarkOpen + MarkClose + tail;
    Assoc(MarkOpen, MarkClose, tail);
    StripOpen(MarkClose + tail);
    StripClose(tail);
    assert StripMarks(Mark(text, q)) == StripMarks(tail);
    if |text| > 0 {
      StripMarksHead(text[0], Mark(text[1..], q), text[1..]);
      assert text == [text[0]] + text[1..];
    }
  }

  /** A marked piece without `<` of its own loses only its tags. */
  lemma StripMarkedPiece(m: string, rest: string, r: string)
    requires forall k :: 0 <= k < |m| ==> m[k] != '<'
    requires StripMarks(rest) == r
    ensures StripMarks(MarkOpen + m + MarkClose + rest) == m + r
  {
    var after := MarkClose + rest;
    Assoc(MarkOpen + m, MarkClose, rest);
    Assoc(MarkOpen, m, after);
    StripOpen(m + after);
    StripMarksPlain(m, after);
    StripClose(rest);
  }

  /** A match's step: the marked match, then the rest. */
  lemma StripMarkMatch(text: string, q: string)
    requires |q| > 0 && MatchAt(text, q, 0)
    requires forall k :: 0 <= k < |q| ==> text[k] != '<'
    requires StripMarks(Mark(text[|q|..], q)) == text[|q|..]
    ensures StripMarks(Mark(text, q)) == text
  {
    var m := text[..|q|];
    assert Mark(text, q) == MarkOpen + m + MarkClose + Mark(text[|q|..], q);
    assert forall k :: 0 <= k < |m| ==> m[k] != '<';
    StripMarkedPiece(m, Mark(text[|q|..], q), text[|q|..]);
    SplitAt(text, |q|);
  }

  /** Deleting the tags from marked text gives back the text (when it holds no `<` of its own). */
  lemma {:induction false} StripMarksMark(text: string, q: string)
    requires forall k :: 0 <= k < |text| ==> text[k] != '<'
    ensures StripMarks(Mark(text, q)) == text
    decreases |text|
  {
    if |q| == 0 {
      if |text| > 0 {
        StripMarksMark(text[1..], q);
      }
      StripMarkEmptyQuery(text, q);
    } else if MatchAt(text, q, 0) {
      StripMarksMark(text[|q|..], q);
      StripMarkMatch(text, q);
    } else if |text| > 0 {
      StripMarksMark(text[1..], q);
      assert Mark(text, q) == [text[0]] + Mark(text[1..], q);
      StripMarksHead(text[0], Mark(text[1..], q), text[1..]);
      assert text == [text[0]] + text[1..];
    }
  }

  /** A non-empty query that occurs nowhere leaves the text as it is. */
  lemma {:induction false} MarkWithoutMatch(text: string, q: string)
    requires |q| > 0
    requires forall j :: 0 <= j ==> !MatchAt(text, q, j)
    ensures Mark(text, q) == text
    decreases |text|
  {
    if |text| > 0 {
      forall j | 0 <= j ensures !MatchAt(text[1..], q, j) {
        assert !MatchAt(text, q, j + 1);
        if j + |q| <= |text| - 1 {
          assert text[1..][j..j + |q|] == text[j + 1..j + 1 + |q|];
        }
      }
      MarkWithoutMatch(text[1..], q);
      assert text == [text[0]] + text[1..];
    }
  }

  // ---------------------------------------------------------------------------
  // `getHighlightMatches`
  // ---------------------------------------------------------------------------

  /** `substring` with both ends clamped into the text. */
  function Clamp(x: int, len: nat): (r: nat)
    ensures r <= len
    ensures 0 <= x <= len ==> r == x
  {
    if x < 0 then 0 else if x > len then len else x
  }

  /** `text.substring(i - 20, i + 80).trim()`. */
  function Excerpt(text: string, i: nat): string {
    Trim(text[Clamp(i - 20, |text|)..Clamp(i + 80, |text|)])
  }

  /** The excerpt window reaches from 20 characters before a match to 80 after its start, within the text. */
  lemma ExcerptWindow(text: string, i: nat)
    ensures var lo := Clamp(i - 20, |text|); var hi := Clamp(i + 80, |text|);
      lo <= hi && (i >= 20 ==> lo == i - 20 || lo == |text|) && (i < 20 ==> lo == 0)
      && (i + 80 <= |text| ==> hi == i + 80) && (i + 80 > |text| ==> hi == |text|)
      && |Excerpt(text, i)| <= hi - lo
  {
  }

  /** A match of at most 80 characters lies wholly inside its window. */
  lemma MatchInWindow(text: string, q: string, i: nat)
    requires MatchAt(text, q, i) && |q| <= 80
    ensures Clamp(i - 20, |text|) <= i && i + |q| <= Clamp(i + 80, |text|)
  {
  }

  /** `ps.map(f)`. */
  function MapPositions(f: nat -> string, ps: seq<nat>): (r: seq<string>)
    ensures |r| == |ps|
  {
    if |ps| == 0 then [] else MapPositions(f, ps[..|ps| - 1]) + [f(ps[|ps| - 1])]
  }

  lemma {:induction false} MapPositionsAt(f: nat -> string, ps: seq<nat>)
    ensures forall k :: 0 <= k < |ps| ==> MapPositions(f, ps)[k] == f(ps[k])
  {
    if |ps| > 0 {
      MapPositionsAt(f, ps[..|ps| - 1]);
    }
  }

  /** The second half of `getHighlightMatches`: each position becomes its marked excerpt. */
  function MarkAll(text: string, q: string, ps: seq<nat>): (r: seq<string>)
    ensures |r| == |ps|
  {
    MapPositions((i: nat) => Mark(Excerpt(text, i), q), ps)
  }

  /** One more position adds its marked excerpt. */
  lemma MarkAllStep(text: string, q: string, ps: seq<nat>, k: nat)
    requires k < |ps|
    ensures MarkAll(text, q, ps[..k + 1]) == MarkAll(text, q, ps[..k]) + [Mark(Excerpt(text, ps[k]), q)]
  {
    assert ps[..k + 1][..k] == ps[..k];
  }

  /** What `getHighlightMatches(text, searchTerm, limit)` returns. */
  function HighlightMatches(text: string, q: string, limit: nat): seq<string> {
    MarkAll(text, q, Positions(text, q, 0, limit))
  }

  /** One excerpt per match position, each the marked window around it, and never more than `limit`. */
  lemma {:induction false} HighlightShape(text: string, q: string, limit: nat)
    ensures var p := Positions(text, q, 0, limit); var h := HighlightMatches(text, q, limit);
      |h| == |p| <= limit && forall k :: 0 <= k < |p| ==> h[k] == Mark(Excerpt(text, p[k]), q)
  {
    PositionsAreMatches(text, q, 0, limit);
    MarkAllAt(text, q, Positions(text, q, 0, limit));
  }

  lemma MarkAllAt(text: string, q: string, ps: seq<nat>)
    ensures forall k :: 0 <= k < |ps| ==> MarkAll(text, q, ps)[k] == Mark(Excerpt(text, ps[k]), q)
  {
    MapPositionsAt((i: nat) => Mark(Excerpt(text, i), q), ps);
  }

  /** A text where the term never occurs has no highlights. */
  lemma NoMatchNoHighlights(text: string, q: string, limit: nat)
    requires forall j :: 0 <= j ==> !MatchAt(text, q, j)
    ensures HighlightMatches(text, q, limit) == []
  {
    FindFromFirst(text, q, 0);
    PositionsStep(text, q, 0, limit);
  }

  /** The `exec` loop of `getHighlightMatches`: the start of each successive match, up to `limit`. */
  method MatchIndexes(text: string, searchTerm: string, limit: nat) returns (indexes: seq<nat>)
    ensures indexes == Positions(text, searchTerm, 0, limit)
  {
    indexes := [];
    var matches := 0;
    var lastIndex: nat := 0;
    while matches < limit
      invariant 0 <= matches <= limit && |indexes| == matches
      invariant Collected(text, searchTerm, limit, indexes, lastIndex, limit - matches)
      decreases limit - matches
    {
      var found := FindFrom(text, searchTerm, lastIndex);
      if found.None? {
        break;
      }
      ghost var rest := limit - matches;
      PositionsAdvance(text, searchTerm, limit, indexes, lastIndex, rest);
      indexes := indexes + [found.value];
      lastIndex := found.value + |searchTerm|;
      matches := matches + 1;
      assert limit - matches == rest - 1;
    }
    PositionsDone(text, searchTerm, limit, indexes, lastIndex, limit - matches);
  }

  /**
   * `getHighlightMatches`: the `exec` loop collects the match positions,
   * then each becomes a trimmed, marked excerpt.
   */
  method GetHighlightMatches(text: string, searchTerm: string, limit: nat) returns (excerpts: seq<string>)
    ensures excerpts == HighlightMatches(text, searchTerm, limit)
    ensures |excerpts| <= limit
  {
    var indexes := MatchIndexes(text, searchTerm, limit);
    PositionsAreMatches(text, searchTerm, 0, limit);
    excerpts := [];
    for k := 0 to |indexes|
      invariant excerpts == MarkAll(text, searchTerm, indexes[..k])
    {
      MarkAllStep(text, searchTerm, indexes, k);
      excerpts := excerpts + [Mark(Excerpt(text, indexes[k]), searchTerm)];
    }
    assert indexes[..|indexes|] == indexes;
  }

  // ---------------------------------------------------------------------------
  // `createFlexSearchIndex` and `search`
  // ---------------------------------------------------------------------------

  /** A returned data item, with the highlights `search` attached to it, if any. */
  datatype Found<T> = Found(item: T, highlights: Option<seq<string>>)

  /** The number of excerpts `search` asks for per result. */
  const HighlightLimit: nat := 3

  function AsFound<T>(data: seq<T>): (r: seq<Found<T>>)
    ensures |r| == |data| && forall k :: 0 <= k < |data| ==> r[k] == Found(data[k], None)
  {
    if |data| == 0 then [] else AsFound(data[..|data| - 1]) + [Found(data[|data| - 1], None)]
  }

  /** One result: the data item, with highlights when its highlightable text is non-empty. */
  function FoundOf<T>(item: T, query: string, highlightable: Option<T -> string>): (r: Found<T>)
    ensures r.item == item
    ensures r.highlights.Some? <==> highlightable.Some? && highlightable.value(item) != ""
    ensures r.highlights.Some? ==> |r.highlights.value| <= HighlightLimit
  {
    if highlightable.None? then Found(item, None)
    else
      var text := highlightable.value(item);
      if text == "" then Found(item, None)
      else
        HighlightShape(text, query, HighlightLimit);
        Found(item, Some(HighlightMatches(text, query, HighlightLimit)))
  }

  /** `ids.map(id => g(data[id]))`. */
  function MapItems<T, U>(g: T -> U, data: seq<T>, ids: seq<nat>): (r: seq<U>)
    requires forall k :: 0 <= k < |ids| ==> ids[k] < |data|
    ensures |r| == |ids|
  {
    if |ids| == 0 then []
    else MapItems(g, data, ids[..|ids| - 1]) + [g(data[ids[|ids| - 1]])]
  }

  lemma {:induction false} MapItemsAt<T, U>(g: T -> U, data: seq<T>, ids: seq<nat>)
    requires forall k :: 0 <= k < |ids| ==> ids[k] < |data|
    ensures forall k :: 0 <= k < |ids| ==> MapItems(g, data, ids)[k] == g(data[ids[k]])
  {
    if |ids| > 0 {
      MapItemsAt(g, data, ids[..|ids| - 1]);
    }
  }

  /** The results for the ids the index returned, in its order. */
  function FoundAll<T>(data: seq<T>, hits: seq<nat>, query: string, highlightable: Option<T -> string>): (r: seq<Found<T>>)
    requires forall k :: 0 <= k < |hits| ==> hits[k] < |data|
    ensures |r| == |hits|
    ensures forall k :: 0 <= k < |hits| ==> r[k] == FoundOf(data[hits[k]], query, highlightable)
  {
    var g := (item: T) => FoundOf(item, query, highlightable);
    MapItemsAt(g, data, hits);
    MapItems(g, data, hits)
  }

  /** What `search` returns for a query, given the ids the index returned for the escaped query. */
  function SearchResults<T>(ready: bool, returnAllOnEmpty: bool, data: seq<T>, query: string, hits: seq<nat>,
                            highlightable: Option<T -> string>): (r: seq<Found<T>>)
    requires forall k :: 0 <= k < |hits| ==> hits[k] < |data|
    ensures !ready || query == "" ==> r == (if returnAllOnEmpty then AsFound(data) else [])
    ensures ready && query != "" ==>
      |r| == |hits| && forall k :: 0 <= k < |hits| ==> r[k] == FoundOf(data[hits[k]], query, highlightable)
  {
    if !ready || Escape(query) == [] then (if returnAllOnEmpty then AsFound(data) else [])
    else FoundAll(data, hits, query, highlightable)
  }

  /** The hook's state: the data, whether the index has been built, and its options. */
  class FlexIndex<T> {
    var data: seq<T>
    var ready: bool
    var returnAllOnEmpty: bool
    var highlightable: Option<T -> string>
    /** The searchable string handed to the index per data position. */
    var indexed: seq<string>

    /** `returnAllOnEmpty ?? true`; the index starts out not ready. */
    constructor(data: seq<T>, returnAllOnEmpty: Option<bool>, highlightable: Option<T -> string>)
      ensures this.data == data && !ready && indexed == []
      ensures this.returnAllOnEmpty == (returnAllOnEmpty.None? || returnAllOnEmpty.value)
      ensures this.highlightable == highlightable
    {
      this.data := data;
      ready := false;
      this.returnAllOnEmpty := if returnAllOnEmpty.Some? then returnAllOnEmpty.value else true;
      this.highlightable := highlightable;
      indexed := [];
    }

    /** `onMount`: with data, every item's searchable string is added under its position and the index is ready; with none, nothing happens. */
    method Mount(indexer: T -> string)
      modifies this
      ensures |old(data)| == 0 ==> ready == old(ready) && indexed == old(indexed)
      ensures |old(data)| > 0 ==>
        ready && |indexed| == |data| && forall k :: 0 <= k < |data| ==> indexed[k] == indexer(data[k])
      ensures data == old(data) && returnAllOnEmpty == old(returnAllOnEmpty) && highlightable == old(highlightable)
    {
      if |data| == 0 {
        return;
      }
      var texts: seq<string> := [];
      for i := 0 to |data|
        invariant |texts| == i && forall k :: 0 <= k < i ==> texts[k] == indexer(data[k])
      {
        texts := texts + [indexer(data[i])];
      }
      indexed := texts;
      ready := true;
    }

    /** `search`: the results for a query, given the ids the index returned for it. */
    method Search(query: string, hits: seq<nat>) returns (results: seq<Found<T>>)
      requires forall k :: 0 <= k < |hits| ==> hits[k] < |data|
      ensures results == SearchResults(ready, returnAllOnEmpty, data, query, hits, highlightable)
    {
      if !ready {
        if returnAllOnEmpty { return AsFound(data); }
        return [];
      }
      var escaped := Escape(query);
      if escaped == [] {
        if returnAllOnEmpty { return AsFound(data); }
        return [];
      }
      results := [];
      for k := 0 to |hits|
        invariant results == FoundAll(data, hits[..k], query, highlightable)
      {
        assert hits[..k + 1][..k] == hits[..k];
        var item := data[hits[k]];
        var found := Found(item, None);
        if highlightable.Some? {
          var text := highlightable.value(item);
          if text != "" {
            var highlights := GetHighlightMatches(text, query, HighlightLimit);
            found := Found(item, Some(highlights));
          }
        }
        results := results + [found];
      }
      assert hits[..|hits|] == hits;
    }
  }
}
