/**
 * From content-collection documents to `DocsPage` records: the `docsPages`
 * mapping of apps/web/src/lib/docs/docs-data.ts, and the provider's copy in
 * apps/web/src/gittydocs/contexts/docs.context.tsx. The two differ in the
 * source path (a generated route-to-file map with a `.mdx` fallback, or the
 * slug itself) and in the heading extractor (fence-blind or fence-aware).
 */
module DocsData {
  import opened Wrappers
  import opened Text
  import opened Types
  import opened Routes
  import opened Headings

  /** `doc.rawMarkdown || ""`. */
  function RawOf(doc: VeliteDoc): (r: string)
    ensures Truthy(doc.rawMarkdown) ==> r == doc.rawMarkdown.value
    ensures !Truthy(doc.rawMarkdown) ==> r == ""
  {
    if doc.rawMarkdown.Some? then doc.rawMarkdown.value else ""
  }

  /** `doc.title || "Untitled"`. */
  function TitleOf(doc: VeliteDoc): (r: string)
    ensures r != ""
    ensures doc.title != "" ==> r == doc.title
  {
    if doc.title != "" then doc.title else "Untitled"
  }

  /** `sourcePathByRoute[routePath] || slugAsParams + ".mdx"`. */
  function SourcePathOf(sourceMap: map<string, string>, route: string, slugAsParams: string): (r: string)
    ensures route in sourceMap && sourceMap[route] != "" ==> r == sourceMap[route]
    ensures !(route in sourceMap && sourceMap[route] != "") ==> r == slugAsParams + ".mdx"
  {
    if route in sourceMap && sourceMap[route] != "" then sourceMap[route] else slugAsParams + ".mdx"
  }

  /** One document as docs-data.ts maps it. */
  function DataPage(doc: VeliteDoc, sourceMap: map<string, string>): (r: DocsPage)
    ensures |r.routePath| > 0 && r.routePath[0] == '/'
    ensures r.routePath == RouteOf(Slug, doc.slugAsParams)
    ensures r.sourcePath == SourcePathOf(sourceMap, r.routePath, doc.slugAsParams)
    ensures r.title == TitleOf(doc) && r.rawContent == RawOf(doc)
    ensures r.headings == RunPlain(Split(RawOf(doc), '\n'))
    ensures r.description == doc.description && r.content == doc.content
  {
    var route := RouteOf(Slug, doc.slugAsParams);
    DocsPage(route, SourcePathOf(sourceMap, route, doc.slugAsParams), TitleOf(doc), doc.description,
      RunPlain(Split(RawOf(doc), '\n')), doc.content, RawOf(doc))
  }

  /** One document as the provider in docs.context.tsx maps it. */
  function ContextPage(doc: VeliteDoc): (r: DocsPage)
    ensures |r.routePath| > 0 && r.routePath[0] == '/'
    ensures r.routePath == RouteOf(Slug, doc.slugAsParams) && r.sourcePath == doc.slugAsParams
    ensures r.title == TitleOf(doc) && r.rawContent == RawOf(doc)
    ensures r.headings == Run(Outside, Split(RawOf(doc), '\n'))
  {
    DocsPage(RouteOf(Slug, doc.slugAsParams), doc.slugAsParams, TitleOf(doc), doc.description,
      Run(Outside, Split(RawOf(doc), '\n')), doc.content, RawOf(doc))
  }

  /** `docsPages`: one page per document, in order. */
  function DocsPages(docs: seq<VeliteDoc>, sourceMap: map<string, string>): (r: seq<DocsPage>)
    ensures |r| == |docs|
    ensures forall i :: 0 <= i < |docs| ==> r[i] == DataPage(docs[i], sourceMap)
  {
    seq(|docs|, i requires 0 <= i < |docs| => DataPage(docs[i], sourceMap))
  }

  /**
   * The two mappings give the same route, title and raw content; their
   * headings agree when the raw Markdown has no fence marker line.
   */
  lemma MappingsAgree(doc: VeliteDoc, sourceMap: map<string, string>)
    requires forall l :: l in Split(RawOf(doc), '\n') ==> FenceMarker(l).None?
    ensures var a := DataPage(doc, sourceMap); var b := ContextPage(doc);
      a.routePath == b.routePath && a.title == b.title && a.rawContent == b.rawContent
      && a.headings == b.headings
  {
    var lines := Split(RawOf(doc), '\n');
    assert forall i :: 0 <= i < |lines| ==> FenceMarker(lines[i]).None? by {
      forall i | 0 <= i < |lines| ensures FenceMarker(lines[i]).None? {
        assert lines[i] in lines;
      }
    }
    PlainAgreesWithoutFences(lines);
  }

  /** A document without a mapped source file gets its slug with `.mdx`. */
  lemma UnmappedSource(doc: VeliteDoc, sourceMap: map<string, string>)
    requires RouteOf(Slug, doc.slugAsParams) !in sourceMap
    ensures DataPage(doc, sourceMap).sourcePath == doc.slugAsParams + ".mdx"
  {
  }
}
