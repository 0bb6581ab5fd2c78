/**
 * The search wrapper `SearchIndex` (apps/web/src/lib/gittydocs/search.ts, and
 * the identical class in docs.context.tsx): a page map kept beside a
 * full-text index. The full-text index is a library whose matching and
 * ranking are not modelled: the class records the texts it hands to the
 * index per route, and `Search` receives the ids the index returned as the
 * parameter `hits`.
 */
module Search {
  import opened Wrappers
  import opened Text
  import opened Types
  import opened MarkdownStrip

  /** The number of ids the wrapper asks the full-text index for. */
  const SearchLimit := 10

  function Min(a: int, b: int): int { if a <= b then a else b }
  function Max(a: int, b: int): int { if a <= b then b else a }

  function HeadingTexts(hs: seq<Heading>): (r: seq<string>)
    ensures |r| == |hs| && forall i :: 0 <= i < |hs| ==> r[i] == hs[i].text
  {
    if |hs| == 0 then [] else HeadingTexts(hs[..|hs| - 1]) + [hs[|hs| - 1].text]
  }

  /**
   * The texts `addPage` hands to the full-text index for one page, in order:
   * the title, the description when it is non-empty, every heading text and the
   * stripped body.
   */
  function IndexedTexts(page: DocsPage): (r: seq<string>)
    ensures |r| >= 2 && r[0] == page.title && r[|r| - 1] == StripMarkdown(page.rawContent)
    ensures |r| == |page.headings| + 2 + (if Truthy(page.description) then 1 else 0)
  {
    [page.title] + (if Truthy(page.description) then [page.description.value] else [])
      + HeadingTexts(page.headings) + [StripMarkdown(page.rawContent)]
  }

  /**
   * `generateSnippet`: a window of the stripped text around the first
   * case-insensitive occurrence of the query, 60 characters before it and
   * 90 after it, or the first 150 characters when there is none; `...`
   * marks each side that was cut.
   */
  function GenerateSnippet(content: string, query: string): string {
    SnippetOf(StripMarkdown(content), query)
  }

  /** The snippet of an already stripped text. */
  function SnippetOf(text: string, query: string): (r: string)
    ensures |r| <= |query| + 156
    ensures |r| <= |text| + 6
    ensures IndexOf(ToLower(text), ToLower(query)) == -1 ==>
      (|text| <= 150 ==> r == text)
      && (|text| > 150 ==> |r| == 153 && r[..150] == text[..150] && r[150..] == "...")
  {
    SnippetAt(text, |query|, IndexOf(ToLower(text), ToLower(query)))
  }

  /** The snippet once the occurrence, of a query `q` characters long, is known to be at `index` (-1: none). */
  function SnippetAt(text: string, q: nat, index: int): (r: string)
    requires index == -1 || (0 <= index && index + q <= |text|)
    ensures |r| <= q + 156
    ensures |r| <= |text| + 6
    ensures index == -1 ==>
      (|text| <= 150 ==> r == text)
      && (|text| > 150 ==> |r| == 153 && r[..150] == text[..150] && r[150..] == "...")
  {
    if index == -1 then
      text[..Min(150, |text|)] + (if |text| > 150 then "..." else "")
    else
      var start := Max(0, index - 60);
      var end := Min(|text|, index + q + 90);
      (if start > 0 then "..." else "") + text[start..end] + (if end < |text| then "..." else "")
  }

  /** The window `generateSnippet` cuts around an occurrence at `i` of a query of length `q`. */
  function WindowStart(i: int): int { Max(0, i - 60) }
  function WindowEnd(len: int, i: int, q: int): int { Min(len, i + q + 90) }

  lemma SnippetWindow(text: string, query: string)
    requires IndexOf(ToLower(text), ToLower(query)) != -1
    ensures var i := IndexOf(ToLower(text), ToLower(query));
      var start := WindowStart(i); var end := WindowEnd(|text|, i, |query|);
      SnippetOf(text, query)
        == (if start > 0 then "..." else "") + text[start..end] + (if end < |text| then "..." else "")
      && start <= i && i + |query| <= end
  {
    var i := IndexOf(ToLower(text), ToLower(query));
    assert SnippetOf(text, query) == SnippetAt(text, |query|, i);
  }

  /**
   * An occurrence at `i`: the snippet is the window [max(0, i-60), min(len, i+|q|+90))
   * of the text, with a `...` marker before it exactly when it starts after 0 and
   * after it exactly when it ends before the end of the text; the window covers
   * the occurrence, so the lowercased snippet still contains the lowercased
   * query, right after the marker and the lead.
   */
  lemma SnippetContainsMatch(text: string, query: string)
    requires IndexOf(ToLower(text), ToLower(query)) != -1
    ensures var i := IndexOf(ToLower(text), ToLower(query));
      var start := WindowStart(i);
      OccursAt(ToLower(SnippetOf(text, query)), ToLower(query), (if start > 0 then 3 else 0) + i - start)
  {
    var i := IndexOf(ToLower(text), ToLower(query));
    var start := WindowStart(i);
    var end := WindowEnd(|text|, i, |query|);
    SnippetWindow(text, query);
    var pre: string := if start > 0 then "..." else "";
    var post: string := if end < |text| then "..." else "";
    assert |pre| == (if start > 0 then 3 else 0);
    OccursInWindow(text, query, i, start, end, pre, post);
    assert SnippetOf(text, query) == pre + text[start..end] + post;
  }

  /** A lowercased occurrence inside a window survives cutting the window out and framing it. */
  lemma OccursInWindow(text: string, query: string, i: int, start: int, end: int, pre: string, post: string)
    requires OccursAt(ToLower(text), ToLower(query), i)
    requires 0 <= start <= i && i + |query| <= end <= |text|
    ensures OccursAt(ToLower(pre + text[start..end] + post), ToLower(query), |pre| + i - start)
  {
    var w := text[start..end];
    var r := pre + w + post;
    var k := |pre| + i - start;
    var lq := ToLower(query);
    var lr := ToLower(r);
    forall j | 0 <= j < |query| ensures lr[k + j] == lq[j] {
      assert r[k + j] == w[i - start + j] == text[i + j];
      assert ToLower(text)[i..i + |query|][j] == lq[j];
    }
    assert lr[k..k + |query|] == lq;
  }

  /**
   * The results for the ids `hits`, in order: an id with a stored page gives
   * its route, the page title and a snippet of the page; other ids are skipped.
   */
  function Collect(pages: map<string, DocsPage>, query: string, hits: seq<string>): (r: seq<SearchResult>)
    ensures |r| <= |hits|
  {
    if |hits| == 0 then []
    else
      var init := Collect(pages, query, hits[..|hits| - 1]);
      var id := hits[|hits| - 1];
      if id in pages then
        init + [SearchResult(id, pages[id].title, GenerateSnippet(pages[id].rawContent, query))]
      else init
  }

  /** One more id: a stored page adds its result, any other id adds nothing. */
  lemma CollectStep(pages: map<string, DocsPage>, query: string, hits: seq<string>, i: nat)
    requires i < |hits|
    ensures hits[i] in pages ==>
      Collect(pages, query, hits[..i + 1]) == Collect(pages, query, hits[..i])
        + [SearchResult(hits[i], pages[hits[i]].title, GenerateSnippet(pages[hits[i]].rawContent, query))]
    ensures hits[i] !in pages ==> Collect(pages, query, hits[..i + 1]) == Collect(pages, query, hits[..i])
  {
    assert hits[..i + 1][..i] == hits[..i];
  }

  /** `res` is the result the wrapper builds for a stored id of `hits`. */
  predicate ResultOf(pages: map<string, DocsPage>, query: string, hits: seq<string>, res: SearchResult) {
    res.routePath in hits && res.routePath in pages
    && res.title == pages[res.routePath].title
    && res.snippet == GenerateSnippet(pages[res.routePath].rawContent, query)
  }

  /** Every result names an id from `hits` with a stored page, that page's title and its snippet. */
  lemma {:induction false} CollectResults(pages: map<string, DocsPage>, query: string, hits: seq<string>)
    ensures forall res :: res in Collect(pages, query, hits) ==> ResultOf(pages, query, hits, res)
    decreases |hits|
  {
    if |hits| > 0 {
      var init := hits[..|hits| - 1];
      CollectResults(pages, query, init);
      var r0 := Collect(pages, query, init);
      var id := hits[|hits| - 1];
      assert id in hits;
      forall res | res in r0 ensures ResultOf(pages, query, hits, res) {
        assert ResultOf(pages, query, init, res);
        assert res.routePath in init;
      }
    }
  }

  /**
   * An id is skipped exactly when it has no stored page: the routes of the
   * results are the stored ids of `hits`, in order.
   */
  lemma {:induction false} CollectRoutes(pages: map<string, DocsPage>, query: string, hits: seq<string>)
    ensures var r := Collect(pages, query, hits);
      |r| == |StoredIds(pages, hits)|
      && forall j :: 0 <= j < |r| ==> r[j].routePath == StoredIds(pages, hits)[j]
  {
    if |hits| > 0 {
      CollectRoutes(pages, query, hits[..|hits| - 1]);
    }
  }

  /** The ids of `hits` that have a stored page, in order. */
  function StoredIds(pages: map<string, DocsPage>, hits: seq<string>): (r: seq<string>)
    ensures |r| <= |hits|
    ensures forall j :: 0 <= j < |r| ==> r[j] in pages
  {
    if |hits| == 0 then []
    else
      var init := StoredIds(pages, hits[..|hits| - 1]);
      if hits[|hits| - 1] in pages then init + [hits[|hits| - 1]] else init
  }

  /** No stored page for any id (for instance after `clear`): no results. */
  lemma {:induction false} CollectNoneStored(pages: map<string, DocsPage>, query: string, hits: seq<string>)
    requires forall h :: h in hits ==> h !in pages
    ensures Collect(pages, query, hits) == []
  {
    if |hits| > 0 {
      var init := hits[..|hits| - 1];
      assert forall h :: h in init ==> h in hits;
      assert hits[|hits| - 1] in hits;
      CollectNoneStored(pages, query, init);
    }
  }

  /** Every id stored: one result per id. */
  lemma {:induction false} CollectAllStored(pages: map<string, DocsPage>, query: string, hits: seq<string>)
    requires forall h :: h in hits ==> h in pages
    ensures |Collect(pages, query, hits)| == |hits|
  {
    if |hits| > 0 {
      var init := hits[..|hits| - 1];
      assert forall h :: h in init ==> h in hits;
      assert hits[|hits| - 1] in hits;
      CollectAllStored(pages, query, init);
    }
  }

  /** A query of whitespace only (or nothing) is blank. */
  predicate Blank(query: string) {
    Trim(query) == []
  }

  lemma BlankIffAllSpace(query: string)
    ensures Blank(query) <==> forall i :: 0 <= i < |query| ==> IsSpace(query[i])
  {
    if forall i :: 0 <= i < |query| ==> IsSpace(query[i]) {
      AllSpaceTrims(query);
    } else {
      var i :| 0 <= i < |query| && !IsSpace(query[i]);
      NonSpaceSurvives(query, i);
    }
  }

  lemma NonSpaceSurvives(s: string, i: int)
    requires 0 <= i < |s| && !IsSpace(s[i])
    ensures Trim(s) != []
  {
    var ts := TrimStart(s);
    var d := |s| - |ts|;
    assert ts == s[d..];
    assert d <= i;
    assert ts[i - d] == s[i];
  }

  lemma {:induction false} AllSpaceTrims(s: string)
    requires forall i :: 0 <= i < |s| ==> IsSpace(s[i])
    ensures TrimStart(s) == []
  {
    if |s| > 0 {
      assert forall i :: 0 <= i < |s| - 1 ==> IsSpace(s[1..][i]);
      AllSpaceTrims(s[1..]);
    }
  }

  /** The texts of one page, collected as `addPage` pushes them: title, description if any, headings, stripped body. */
  method PageTexts(page: DocsPage) returns (texts: seq<string>)
    ensures texts == IndexedTexts(page)
  {
    texts := [page.title];
    if page.description.Some? && page.description.value != "" {
      texts := texts + [page.description.value];
    }
    var base := texts;
    var i := 0;
    while i < |page.headings|
      invariant 0 <= i <= |page.headings|
      invariant texts == base + HeadingTexts(page.headings[..i])
    {
      assert page.headings[..i + 1][..i] == page.headings[..i];
      texts := texts + [page.headings[i].text];
      i := i + 1;
    }
    assert page.headings[..i] == page.headings;
    var body := StripMarkdown(page.rawContent);
    texts := texts + [body];
  }

  /** The page map and the texts given to the full-text index, per route. */
  class SearchIndex {
    var pages: map<string, DocsPage>
    var indexed: map<string, seq<string>>

    constructor()
      ensures pages == map[] && indexed == map[]
    {
      pages := map[];
      indexed := map[];
    }

    /**
     * `addPage`: the route's index entry is replaced by the page's texts, and
     * the page map sends the route to this page; other routes are untouched.
     */
    method AddPage(page: DocsPage)
      modifies this
      ensures indexed == old(indexed)[page.routePath := IndexedTexts(page)]
      ensures pages == old(pages)[page.routePath := page]
    {
      var texts := PageTexts(page);
      indexed := indexed[page.routePath := texts];
      pages := pages[page.routePath := page];
    }

    /**
     * `search`: a blank query gives no results and leaves the index unasked;
     * otherwise the ids the index returned are turned into results as
     * `Collect` describes.
     */
    method Search(query: string, hits: seq<string>) returns (results: seq<SearchResult>)
      requires |hits| <= SearchLimit
      ensures Blank(query) ==> results == []
      ensures !Blank(query) ==> results == Collect(pages, query, hits)
      ensures |results| <= |hits| <= SearchLimit
    {
      if Trim(query) == [] {
        return [];
      }
      results := [];
      var i := 0;
      while i < |hits|
        invariant 0 <= i <= |hits|
        invariant results == Collect(pages, query, hits[..i])
      {
        CollectStep(pages, query, hits, i);
        var path := hits[i];
        if path in pages {
          var page := pages[path];
          var snippet := GenerateSnippet(page.rawContent, query);
          results := results + [SearchResult(path, page.title, snippet)];
        }
        i := i + 1;
      }
      assert hits[..i] == hits;
    }

    /** `clear`: both the index and the page map start over. */
    method Clear()
      modifies this
      ensures pages == map[] && indexed == map[]
    {
      indexed := map[];
      pages := map[];
    }
  }
}
