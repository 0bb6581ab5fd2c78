/**
 * The llms.txt output of the documentation build
 * (packages/web-runtime/scripts/prepare-docs.ts): the pages collected from
 * the Markdown files, the route-keyed title, description and path maps that
 * `seedLlmsMaps` fills, the per-page Markdown paths under the llms
 * directory, the nav lines, and the rendered llms.txt and per-page files.
 */
module Llms {
  import opened Wrappers
  import opened Text
  import opened Types
  import opened Routes
  import Frontmatter
  import NavTree

  /** A collected documentation page (`LlmsPage`). */
  datatype LlmsPage = LlmsPage(
    routePath: string,
    sourcePath: string,
    title: string,
    description: Option<string>,
    body: string)

  // ---------------------------------------------------------------------------
  // Collecting pages
  // ---------------------------------------------------------------------------

  /** `path.basename`: the part after the last `/`. */
  function BaseName(p: string): (r: string)
    ensures '/' !in r && EndsWith(p, r)
  {
    var k := LastIndexOfChar(p, '/');
    p[k + 1..]
  }

  /** `path.extname` of a file name: from its last `.`, unless that dot starts the name. */
  function ExtName(name: string): (r: string)
    ensures r == [] || (r[0] == '.' && EndsWith(name, r) && |r| < |name|)
  {
    var k := LastIndexOfChar(name, '.');
    if k <= 0 then [] else name[k..]
  }

  /** The extension test of `collectDocsPages`: `.md` or `.mdx` in any letter case. */
  predicate IsMarkdownPath(relativePath: string) {
    var ext := ToLower(ExtName(BaseName(relativePath)));
    ext == ".md" || ext == ".mdx"
  }

  /** The title of a page: its front matter title, or else the default label of its file name. */
  function PageTitle(path: string, raw: string): (r: string)
    ensures Frontmatter.ExtractFrontmatterField(raw, Frontmatter.Title).Some? ==>
      r == Frontmatter.ExtractFrontmatterField(raw, Frontmatter.Title).value
    ensures Frontmatter.ExtractFrontmatterField(raw, Frontmatter.Title).None? ==> r == NavTree.DefaultLabel(BaseName(path))
  {
    match Frontmatter.ExtractFrontmatterField(raw, Frontmatter.Title)
    case Some(t) => t
    case None => NavTree.DefaultLabel(BaseName(path))
  }

  /**
   * One page of `collectDocsPages` from its path relative to the docs root
   * and its text: the title, the front matter description if any, and the
   * text without its front matter.
   */
  function CollectPage(relativePath: string, raw: string): (p: LlmsPage)
    ensures |p.routePath| > 0 && p.routePath[0] == '/'
    ensures p.sourcePath == ReplaceChar(relativePath, '\\', '/')
    ensures p.title == PageTitle(p.sourcePath, raw)
    ensures p.description.Some? ==> p.description.value != []
    ensures EndsWith(raw, p.body)
  {
    var path := ReplaceChar(relativePath, '\\', '/');
    LlmsPage(
      RouteOf(SourceFile, path),
      path,
      PageTitle(path, raw),
      Frontmatter.ExtractFrontmatterField(raw, Frontmatter.Description),
      Frontmatter.StripFrontmatter(raw))
  }

  /** A walked file, given by its path relative to the docs root and its text. */
  datatype DocFile = DocFile(relativePath: string, raw: string)

  /** The page a walked file contributes: one for a Markdown file, none otherwise. */
  function PageOf(file: DocFile): (r: seq<LlmsPage>)
    ensures |r| <= 1
  {
    if IsMarkdownPath(file.relativePath) then [CollectPage(file.relativePath, file.raw)] else []
  }

  /** The pages of `collectDocsPages`, for the walked files in walk order. */
  function DocPages(files: seq<DocFile>): seq<LlmsPage> {
    Concat(PageOf, files)
  }

  /** `collectDocsPages`: the loop over the walked files, skipping those that are not Markdown. */
  method CollectDocsPages(files: seq<DocFile>) returns (pages: seq<LlmsPage>)
    ensures pages == DocPages(files)
  {
    pages := [];
    var i := 0;
    while i < |files|
      invariant 0 <= i <= |files|
      invariant pages == Concat(PageOf, files[..i])
    {
      ConcatStep(PageOf, files, i);
      pages := pages + PageOf(files[i]);
      i := i + 1;
    }
    assert files[..|files|] == files;
  }

  /** Every collected page is the page of one of the walked Markdown files. */
  lemma DocPagesFromMarkdown(files: seq<DocFile>, p: LlmsPage)
    requires p in DocPages(files)
    ensures exists i :: (0 <= i < |files| && IsMarkdownPath(files[i].relativePath)
                         && p == CollectPage(files[i].relativePath, files[i].raw))
  {
    InConcat(PageOf, files, p);
  }

  /** Every walked Markdown file contributes its page. */
  lemma MarkdownFileCollected(files: seq<DocFile>, i: nat)
    requires i < |files| && IsMarkdownPath(files[i].relativePath)
    ensures CollectPage(files[i].relativePath, files[i].raw) in DocPages(files)
  {
    ConcatHolds(PageOf, files, i, CollectPage(files[i].relativePath, files[i].raw));
  }

  /** The source paths of the pages, in order (`pages.map((p) => p.sourcePath)`). */
  function SourcePathsOf(pages: seq<LlmsPage>): seq<string> {
    seq(|pages|, i requires 0 <= i < |pages| => pages[i].sourcePath)
  }

  /** A file without front matter is titled by its name, has no description and keeps its whole text. */
  lemma PlainFilePage(relativePath: string, raw: string)
    requires !StartsWith(raw, Frontmatter.Fence)
    ensures CollectPage(relativePath, raw).title == NavTree.DefaultLabel(BaseName(ReplaceChar(relativePath, '\\', '/')))
    ensures CollectPage(relativePath, raw).description == None
    ensures CollectPage(relativePath, raw).body == raw
  {
  }

  /** The base name of `dir/name` is `name`. */
  lemma BaseNameOf(dir: string, name: string)
    requires '/' !in name
    ensures BaseName(dir + "/" + name) == name
  {
    LastIndexOfCharAfter(dir, '/', name);
    assert dir + "/" + name == dir + ['/'] + name;
    assert (dir + "/" + name)[|dir| + 1..] == name;
  }

  /** An `index.md` without a front matter title is the "Overview" page. */
  lemma IndexFileTitle(dir: string, raw: string)
    requires Frontmatter.ExtractFrontmatterField(raw, Frontmatter.Title).None?
    ensures PageTitle(dir + "/index.md", raw) == "Overview"
  {
    BaseNameOf(dir, "index.md");
    assert dir + "/" + "index.md" == dir + "/index.md";
    assert NavTree.IsIndexName("index.md");
  }

  // ---------------------------------------------------------------------------
  // The llms directory and paths
  // ---------------------------------------------------------------------------

  const DefaultDir := "llms"

  /**
   * `normalizeLlmsDir`: the configured directory (or `llms`), trimmed and
   * without leading or trailing slashes, and `llms` again if nothing is left.
   */
  function NormalizeLlmsDir(value: Option<string>): string {
    var raw := Trim(if Truthy(value) then value.value else DefaultDir);
    var stripped := DropTrailingSlashes(DropLeadingSlashes(raw));
    if |stripped| > 0 then stripped else DefaultDir
  }

  /** The directory is never empty and has no slash at either end. */
  lemma NormalizeLlmsDirShape(value: Option<string>)
    ensures var r := NormalizeLlmsDir(value);
      |r| > 0 && r[0] != '/' && r[|r| - 1] != '/'
  {
    var given := if Truthy(value) then value.value else DefaultDir;
    var raw := Trim(given);
    StripSlashesEnds(raw);
    var stripped := DropTrailingSlashes(DropLeadingSlashes(raw));
    assert NormalizeLlmsDir(value) == if |stripped| > 0 then stripped else DefaultDir;
  }

  /** A directory name with no blank or slash at either end is used as given. */
  lemma PlainDirKept(d: string)
    requires |d| > 0 && !IsSpace(d[0]) && !IsSpace(d[|d| - 1]) && d[0] != '/' && d[|d| - 1] != '/'
    ensures NormalizeLlmsDir(Some(d)) == d
  {
    assert TrimStart(d) == d;
    assert TrimEnd(d) == d;
    assert Trim(d) == d;
    assert DropLeadingSlashes(d) == d;
    assert DropTrailingSlashes(d) == d;
  }

  /** Without a configured directory the pages live under `llms`. */
  lemma MissingDirIsDefault()
    ensures NormalizeLlmsDir(None) == DefaultDir
  {
    PlainDirKept(DefaultDir);
    assert !Truthy(None);
  }

  /** `.replace(/\.(md|mdx)$/i, ".md")`. */
  function MarkdownExtensionToMd(s: string): (r: string)
    ensures EndsWith(ToLower(s), ".md") || EndsWith(ToLower(s), ".mdx") ==> r == StripMdExtension(s) + ".md"
    ensures !EndsWith(ToLower(s), ".md") && !EndsWith(ToLower(s), ".mdx") ==> r == s
  {
    if EndsWith(ToLower(s), ".md") || EndsWith(ToLower(s), ".mdx") then StripMdExtension(s) + ".md" else s
  }

  /** `buildLlmsPath`: `/dir/` and the source path with a `.md` extension and no leading slash. */
  function BuildLlmsPath(sourcePath: string, dir: string): (r: string)
    ensures StartsWith(r, "/" + dir + "/")
    ensures r == "/" + dir + "/" + r[|dir| + 2..]
    ensures r[|dir| + 2..] == [] || r[|dir| + 2] != '/'
  {
    var rel := DropLeadingSlashes(MarkdownExtensionToMd(sourcePath));
    var r := "/" + dir + "/" + rel;
    assert r[..|dir| + 2] == "/" + dir + "/";
    assert r[|dir| + 2..] == rel;
    r
  }

  /** A Markdown source path keeps its stem and gets the `.md` extension under the llms directory. */
  lemma MarkdownLlmsPath(sourcePath: string, dir: string)
    requires EndsWith(ToLower(sourcePath), ".md") || EndsWith(ToLower(sourcePath), ".mdx")
    requires sourcePath[0] != '/'
    ensures BuildLlmsPath(sourcePath, dir) == "/" + dir + "/" + StripMdExtension(sourcePath) + ".md"
  {
    var stem := StripMdExtension(sourcePath);
    var m := MarkdownExtensionToMd(sourcePath);
    assert m == stem + ".md";
    assert m[0] != '/' by {
      if |stem| > 0 {
        assert m[0] == stem[0] == sourcePath[0];
      }
    }
    assert DropLeadingSlashes(m) == m;
    assert "/" + dir + "/" + (stem + ".md") == "/" + dir + "/" + stem + ".md";
  }

  /** `/^https?:\/\//i.test(p)`. */
  predicate IsHttpUrl(p: string) {
    StartsWith(ToLower(p), "http://") || StartsWith(ToLower(p), "https://")
  }

  /**
   * `normalizeLlmsPath`: no path for a missing or empty one; an http(s) URL
   * as it is; otherwise the path with a leading `/`.
   */
  function NormalizeLlmsPath(path: Option<string>): (r: Option<string>)
    ensures r.None? <==> !Truthy(path)
    ensures r.Some? ==> IsHttpUrl(r.value) || StartsWith(r.value, "/")
    ensures r.Some? ==> EndsWith(r.value, path.value) && |r.value| <= |path.value| + 1
  {
    if !Truthy(path) then None
    else if IsHttpUrl(path.value) then path
    else if StartsWith(path.value, "/") then path
    else
      var r := "/" + path.value;
      assert r[|r| - |path.value|..] == path.value;
      Some(r)
  }

  /** Normalising a normalised path changes nothing. */
  lemma NormalizeLlmsPathIdempotent(path: Option<string>)
    ensures NormalizeLlmsPath(NormalizeLlmsPath(path)) == NormalizeLlmsPath(path)
  {
  }

  /** A path starting with `/` is no http(s) URL. */
  lemma RootedIsNotUrl(p: string)
    requires |p| > 0 && p[0] == '/'
    ensures !IsHttpUrl(p)
  {
    assert ToLower(p)[0] == '/';
  }

  /** `resolveThemeFile`: the configured theme stylesheet if it is a non-empty string, else `theme.css`. */
  function ResolveThemeFile(cssFile: Option<string>): (r: string)
    ensures r != []
    ensures Truthy(cssFile) ==> r == cssFile.value
    ensures !Truthy(cssFile) ==> r == "theme.css"
  {
    if Truthy(cssFile) then cssFile.value else "theme.css"
  }

  // ---------------------------------------------------------------------------
  // The route-keyed maps
  // ---------------------------------------------------------------------------

  /** The three maps the renderers read. */
  datatype Lookup = Lookup(titles: map<string, string>, descriptions: map<string, string>, paths: map<string, string>)

  /** The title map after seeding: each page sets its route, a later page overwriting an earlier one. */
  function TitleMap(pages: seq<LlmsPage>): map<string, string> {
    if |pages| == 0 then map[]
    else
      var p := pages[|pages| - 1];
      TitleMap(pages[..|pages| - 1])[p.routePath := p.title]
  }

  /** The description map after seeding: only pages with a non-empty description set their route. */
  function DescriptionMap(pages: seq<LlmsPage>): map<string, string> {
    if |pages| == 0 then map[]
    else
      var p := pages[|pages| - 1];
      var m := DescriptionMap(pages[..|pages| - 1]);
      if Truthy(p.description) then m[p.routePath := p.description.value] else m
  }

  /** The path map after seeding: each route maps to its page's file under the llms directory. */
  function PathMap(pages: seq<LlmsPage>, dir: string): map<string, string> {
    if |pages| == 0 then map[]
    else
      var p := pages[|pages| - 1];
      PathMap(pages[..|pages| - 1], dir)[p.routePath := BuildLlmsPath(p.sourcePath, dir)]
  }

  /** The last page with a route decides its title and its path; routes of no page are absent. */
  lemma {:induction false} LastPageWins(pages: seq<LlmsPage>, dir: string, i: nat)
    requires i < |pages|
    requires forall j :: i < j < |pages| ==> pages[j].routePath != pages[i].routePath
    ensures pages[i].routePath in TitleMap(pages) && TitleMap(pages)[pages[i].routePath] == pages[i].title
    ensures pages[i].routePath in PathMap(pages, dir)
    ensures PathMap(pages, dir)[pages[i].routePath] == BuildLlmsPath(pages[i].sourcePath, dir)
    decreases |pages|
  {
    if i < |pages| - 1 {
      var init := pages[..|pages| - 1];
      LastPageWins(init, dir, i);
    }
  }

  /** The title map has exactly the routes of the pages as keys. */
  lemma {:induction false} TitleMapKeys(pages: seq<LlmsPage>)
    ensures forall r :: r in TitleMap(pages) <==> exists i :: 0 <= i < |pages| && pages[i].routePath == r
    decreases |pages|
  {
    if |pages| > 0 {
      var init := pages[..|pages| - 1];
      TitleMapKeys(init);
      forall r | r in TitleMap(init)
        ensures exists i :: 0 <= i < |pages| && pages[i].routePath == r
      {
        var i :| 0 <= i < |init| && init[i].routePath == r;
        assert pages[i] == init[i];
      }
      forall r | exists i :: 0 <= i < |pages| && pages[i].routePath == r
        ensures r in TitleMap(pages)
      {
        var i :| 0 <= i < |pages| && pages[i].routePath == r;
        if i < |init| {
          assert init[i] == pages[i];
        }
      }
    }
  }

  /** The path map has the same keys as the title map. */
  lemma {:induction false} PathMapKeys(pages: seq<LlmsPage>, dir: string)
    ensures PathMap(pages, dir).Keys == TitleMap(pages).Keys
    decreases |pages|
  {
    if |pages| > 0 {
      PathMapKeys(pages[..|pages| - 1], dir);
    }
  }

  /** Every description in the map is the non-empty description of a page with that route. */
  lemma {:induction false} DescriptionMapFromPages(pages: seq<LlmsPage>)
    ensures forall r :: r in DescriptionMap(pages) ==>
      DescriptionMap(pages)[r] != [] && exists i :: 0 <= i < |pages| && pages[i].routePath == r && pages[i].description == Some(DescriptionMap(pages)[r])
    decreases |pages|
  {
    if |pages| > 0 {
      var init := pages[..|pages| - 1];
      DescriptionMapFromPages(init);
      forall r | r in DescriptionMap(init)
        ensures exists i :: 0 <= i < |pages| && pages[i].routePath == r && pages[i].description == Some(DescriptionMap(init)[r])
      {
        var i :| 0 <= i < |init| && init[i].routePath == r && init[i].description == Some(DescriptionMap(init)[r]);
        assert pages[i] == init[i];
      }
    }
  }

  /** Under unique routes, a page's description is in the map exactly when it is non-empty. */
  lemma {:induction false} UniqueDescription(pages: seq<LlmsPage>, i: nat)
    requires i < |pages|
    requires forall j :: 0 <= j < |pages| && j != i ==> pages[j].routePath != pages[i].routePath
    ensures pages[i].routePath in DescriptionMap(pages) <==> Truthy(pages[i].description)
    ensures Truthy(pages[i].description) ==> DescriptionMap(pages)[pages[i].routePath] == pages[i].description.value
    decreases |pages|
  {
    var init := pages[..|pages| - 1];
    if i < |pages| - 1 {
      UniqueDescription(init, i);
    } else {
      DescriptionMapFromPages(init);
      assert pages[i].routePath !in DescriptionMap(init);
    }
  }

  // ---------------------------------------------------------------------------
  // Nav lines
  // ---------------------------------------------------------------------------

  const LlmsTxtPath := "/llms.txt"

  /** `resolveLlmsPath`: URLs as they are, routes of seeded pages to their llms file, anything else unchanged. */
  function ResolveLlmsPath(lk: Lookup, path: string): (r: string)
    ensures IsHttpUrl(path) ==> r == path
    ensures r == path || (path in lk.paths && r == lk.paths[path])
  {
    if IsHttpUrl(path) then path
    else if path in lk.paths && lk.paths[path] != [] then lk.paths[path]
    else path
  }

  /**
   * `renderNavLine`: a Markdown list link labelled with the seeded title, the
   * item's own label, or the path, in that order of preference, followed by
   * the seeded description when there is one.
   */
  function RenderNavLine(lk: Lookup, path: string, fallback: string): (r: string)
    ensures StartsWith(r, "- [")
  {
    var resolved := ResolveLlmsPath(lk, path);
    var shown := if path in lk.titles && lk.titles[path] != [] then lk.titles[path]
      else if fallback != [] then fallback
      else path;
    if path in lk.descriptions && lk.descriptions[path] != [] then
      "- [" + shown + "](" + resolved + "): " + lk.descriptions[path]
    else
      "- [" + shown + "](" + resolved + ")"
  }

  /** The maps as `seedLlmsMaps` leaves them for `pages`. */
  function Seeded(pages: seq<LlmsPage>, dir: string): Lookup {
    Lookup(TitleMap(pages), DescriptionMap(pages), PathMap(pages, dir))
  }

  /**
   * With unique routes, a page's nav line links its title to its llms file
   * and carries its description when it has one.
   */
  lemma SeededNavLine(pages: seq<LlmsPage>, dir: string, i: nat, fallback: string)
    requires i < |pages|
    requires forall j :: 0 <= j < |pages| && j != i ==> pages[j].routePath != pages[i].routePath
    requires pages[i].title != [] && |pages[i].routePath| > 0 && pages[i].routePath[0] == '/'
    ensures RenderNavLine(Seeded(pages, dir), pages[i].routePath, fallback) ==
      "- [" + pages[i].title + "](" + BuildLlmsPath(pages[i].sourcePath, dir) + ")"
      + (if Truthy(pages[i].description) then ": " + pages[i].description.value else "")
  {
    var p := pages[i];
    LastPageWins(pages, dir, i);
    UniqueDescription(pages, i);
    RootedIsNotUrl(p.routePath);
    assert BuildLlmsPath(p.sourcePath, dir) != [];
    var link := "- [" + p.title + "](" + BuildLlmsPath(p.sourcePath, dir);
    if Truthy(p.description) {
      assert link + "): " + p.description.value == link + ")" + (": " + p.description.value);
    } else {
      assert link + ")" + "" == link + ")";
    }
  }

  /** The nav entry (path, label) an item with the given path yields: none for a missing path or llms.txt. */
  function EntryOf(path: Option<string>, caption: string): (r: seq<(string, string)>)
    ensures |r| <= 1
    ensures r == [] <==> NormalizeLlmsPath(path).None? || NormalizeLlmsPath(path).value == LlmsTxtPath
    ensures r != [] ==> r[0] == (NormalizeLlmsPath(path).value, caption)
  {
    match NormalizeLlmsPath(path)
    case None => []
    case Some(p) => if p == LlmsTxtPath then [] else [(p, caption)]
  }

  /** An item with a non-empty `items` list. */
  predicate IsGroup(item: NavItem) {
    item.items.Items? && |item.items.list| > 0
  }

  /** The entries of a group's children, each taken as a leaf. */
  function LeafEntries(items: seq<NavItem>): seq<(string, string)> {
    if |items| == 0 then []
    else
      var it := items[|items| - 1];
      LeafEntries(items[..|items| - 1]) + EntryOf(it.path, it.title)
  }

  function ItemEntries(item: NavItem): seq<(string, string)> {
    if IsGroup(item) then LeafEntries(item.items.list) else EntryOf(item.path, item.title)
  }

  /** What `renderNavItems` renders, as (path, label) entries in order. */
  function NavEntries(items: seq<NavItem>): seq<(string, string)> {
    if |items| == 0 then [] else NavEntries(items[..|items| - 1]) + ItemEntries(items[|items| - 1])
  }

  /** `f` applied to each entry, in order. */
  function MapEntries<E, R>(f: E -> R, entries: seq<E>): (r: seq<R>)
    ensures |r| == |entries|
  {
    if |entries| == 0 then []
    else MapEntries(f, entries[..|entries| - 1]) + [f(entries[|entries| - 1])]
  }

  lemma {:induction false} MapEntriesAppend<E, R>(f: E -> R, a: seq<E>, b: seq<E>)
    ensures MapEntries(f, a + b) == MapEntries(f, a) + MapEntries(f, b)
    decreases |b|
  {
    if |b| == 0 {
      assert a + b == a;
    } else {
      var init := b[..|b| - 1];
      var x := b[|b| - 1];
      MapEntriesAppend(f, a, init);
      InitOfAppend(a, b);
      assert MapEntries(f, a + b) == MapEntries(f, a + init) + [f(x)];
      assert MapEntries(f, b) == MapEntries(f, init) + [f(x)];
    }
  }

  /** One nav line per entry, in order. */
  function LinesOf(lk: Lookup, entries: seq<(string, string)>): (r: seq<string>)
    ensures |r| == |entries|
  {
    MapEntries((e: (string, string)) => RenderNavLine(lk, e.0, e.1), entries)
  }

  /** `renderNavItems`: one nav line per entry. */
  function NavLines(lk: Lookup, items: seq<NavItem>): seq<string> {
    LinesOf(lk, NavEntries(items))
  }

  lemma LinesOfAppend(lk: Lookup, a: seq<(string, string)>, b: seq<(string, string)>)
    ensures LinesOf(lk, a + b) == LinesOf(lk, a) + LinesOf(lk, b)
  {
    MapEntriesAppend((e: (string, string)) => RenderNavLine(lk, e.0, e.1), a, b);
  }

  /** The lines an item's own path yields: none, or one for its normalised path. */
  lemma EntryLines(lk: Lookup, path: Option<string>, caption: string)
    ensures var p := NormalizeLlmsPath(path);
      LinesOf(lk, EntryOf(path, caption)) ==
        if p.Some? && p.value != LlmsTxtPath then [RenderNavLine(lk, p.value, caption)] else []
  {
    var p := NormalizeLlmsPath(path);
    if p.Some? && p.value != LlmsTxtPath {
      assert [(p.value, caption)][..0] == [];
    }
  }

  /** The line, if any, that an entry for `path` labelled `caption` renders to. */
  function LineFor(lk: Lookup, path: Option<string>, caption: string): seq<string> {
    var p := NormalizeLlmsPath(path);
    if p.Some? && p.value != LlmsTxtPath then [RenderNavLine(lk, p.value, caption)] else []
  }

  lemma LeafLinesStep(lk: Lookup, children: seq<NavItem>, j: nat)
    requires j < |children|
    ensures LinesOf(lk, LeafEntries(children[..j + 1]))
      == LinesOf(lk, LeafEntries(children[..j])) + LineFor(lk, children[j].path, children[j].title)
  {
    var child := children[j];
    LeafEntriesStep(children, j);
    LinesOfAppend(lk, LeafEntries(children[..j]), EntryOf(child.path, child.title));
    EntryLines(lk, child.path, child.title);
  }

  lemma ItemLinesStep(lk: Lookup, items: seq<NavItem>, i: nat)
    requires i < |items| && !IsGroup(items[i])
    ensures LinesOf(lk, NavEntries(items[..i + 1]))
      == LinesOf(lk, NavEntries(items[..i])) + LineFor(lk, items[i].path, items[i].title)
  {
    NavEntriesStep(items, i);
    LinesOfAppend(lk, NavEntries(items[..i]), EntryOf(items[i].path, items[i].title));
    EntryLines(lk, items[i].path, items[i].title);
  }

  lemma GroupLinesStep(lk: Lookup, items: seq<NavItem>, i: nat)
    requires i < |items| && IsGroup(items[i])
    ensures LinesOf(lk, NavEntries(items[..i + 1]))
      == LinesOf(lk, NavEntries(items[..i])) + LinesOf(lk, LeafEntries(items[i].items.list))
  {
    NavEntriesStep(items, i);
    LinesOfAppend(lk, NavEntries(items[..i]), LeafEntries(items[i].items.list));
  }

  lemma NavEntriesStep(items: seq<NavItem>, i: nat)
    requires i < |items|
    ensures NavEntries(items[..i + 1]) == NavEntries(items[..i]) + ItemEntries(items[i])
  {
    assert items[..i + 1][..i] == items[..i];
  }

  lemma LeafEntriesStep(items: seq<NavItem>, i: nat)
    requires i < |items|
    ensures LeafEntries(items[..i + 1]) == LeafEntries(items[..i]) + EntryOf(items[i].path, items[i].title)
  {
    assert items[..i + 1][..i] == items[..i];
  }

  /** Every rendered entry has a path, normalised, and none is llms.txt. */
  lemma {:induction false} NavEntriesEligible(items: seq<NavItem>)
    ensures forall e :: e in NavEntries(items) ==>
      e.0 != [] && e.0 != LlmsTxtPath && (IsHttpUrl(e.0) || StartsWith(e.0, "/"))
    decreases |items|
  {
    if |items| > 0 {
      NavEntriesEligible(items[..|items| - 1]);
      var it := items[|items| - 1];
      if IsGroup(it) {
        LeafEntriesEligible(it.items.list);
      }
    }
  }

  lemma {:induction false} LeafEntriesEligible(items: seq<NavItem>)
    ensures forall e :: e in LeafEntries(items) ==>
      e.0 != [] && e.0 != LlmsTxtPath && (IsHttpUrl(e.0) || StartsWith(e.0, "/"))
    decreases |items|
  {
    if |items| > 0 {
      LeafEntriesEligible(items[..|items| - 1]);
    }
  }

  /** A child as `renderNavItems` sees it: only its path and label count. */
  function AsLeaf(item: NavItem): NavItem {
    NavItem(item.title, item.path, NoItems, false)
  }

  function AsLeaves(items: seq<NavItem>): (r: seq<NavItem>)
    ensures |r| == |items|
  {
    seq(|items|, k requires 0 <= k < |items| => AsLeaf(items[k]))
  }

  lemma {:induction false} LeavesEntries(items: seq<NavItem>)
    ensures NavEntries(AsLeaves(items)) == LeafEntries(items)
    decreases |items|
  {
    if |items| > 0 {
      var init := items[..|items| - 1];
      var leaves := AsLeaves(items);
      var last := items[|items| - 1];
      LeavesEntries(init);
      assert leaves[..|items| - 1] == AsLeaves(init);
      assert leaves[|items| - 1] == AsLeaf(last);
      assert ItemEntries(AsLeaf(last)) == EntryOf(last.path, last.title);
      assert NavEntries(leaves) == NavEntries(AsLeaves(init)) + ItemEntries(AsLeaf(last));
    }
  }

  /**
   * Exactly one level is flattened: a group yields no line of its own, and
   * its children are rendered as leaves, their own children ignored.
   */
  lemma GroupFlattensOneLevel(group: NavItem)
    requires IsGroup(group)
    ensures NavEntries([group]) == NavEntries(AsLeaves(group.items.list))
  {
    LeavesEntries(group.items.list);
    assert [group][..0] == [];
  }

  /** A leaf without a path, or linking llms.txt itself, yields no line. */
  lemma SkippedLeaf(item: NavItem)
    requires !IsGroup(item)
    requires !Truthy(item.path) || NormalizeLlmsPath(item.path) == Some(LlmsTxtPath)
    ensures NavEntries([item]) == []
  {
    assert [item][..0] == [];
  }

  // ---------------------------------------------------------------------------
  // llms.txt and the per-page files
  // ---------------------------------------------------------------------------

  /** `lines.join("\n").trimEnd() + "\n"`. */
  function Finish(lines: seq<string>): string {
    TrimEnd(Join(lines, "\n")) + "\n"
  }

  /** A first line that starts with a non-blank character makes the output end in one `\n` after a non-blank. */
  lemma FinishShape(lines: seq<string>)
    requires |lines| > 0 && |lines[0]| > 0 && !IsSpace(lines[0][0])
    ensures var t := Finish(lines); |t| >= 2 && t[|t| - 1] == '\n' && !IsSpace(t[|t| - 2])
  {
    var j := Join(lines, "\n");
    if |lines| > 1 {
      assert lines == [lines[0]] + lines[1..];
      JoinAppend([lines[0]], lines[1..], "\n");
    }
    assert j[0] == lines[0][0];
    TrimEndKeeps(j, 0);
  }

  /** The output starts with the first `k` lines, trailing whitespace aside. */
  lemma FinishPrefix(lines: seq<string>, k: nat)
    requires 1 <= k <= |lines|
    ensures StartsWith(Finish(lines), TrimEnd(Join(lines[..k], "\n")))
  {
    var x := Join(lines[..k], "\n");
    if k < |lines| {
      assert lines == lines[..k] + lines[k..];
      JoinAppend(lines[..k], lines[k..], "\n");
      var y := "\n" + Join(lines[k..], "\n");
      assert Join(lines, "\n") == x + y;
      TrimEndConcat(x, y);
    } else {
      assert lines[..k] == lines;
    }
  }

  function SiteName(name: Option<string>): string {
    if Truthy(name) then name.value else "Documentation"
  }

  const PathsNote := "Paths are site-relative. Use {origin}{path}, not /llms.txt{path}."
  const TocHeading := "## Table of Contents"

  /** The fixed head of llms.txt. */
  function HeaderLines(name: Option<string>, description: Option<string>, dir: string): (r: seq<string>)
    ensures |r| >= 7 && r[0] == "# " + SiteName(name) && r[|r| - 2] == TocHeading && r[|r| - 1] == ""
    ensures |r[0]| > 0 && r[0][0] == '#'
  {
    ["# " + SiteName(name)]
    + (if Truthy(description) then ["", "> " + description.value] else [])
    + ["", PathsNote, "Per-page markdown lives at /" + dir + "/... by default.", "", TocHeading, ""]
  }

  /** The groups of the nav, in order. */
  function Sections(nav: seq<NavItem>): (r: seq<NavItem>)
    ensures |r| <= |nav|
  {
    if |nav| == 0 then []
    else Sections(nav[..|nav| - 1]) + (if IsGroup(nav[|nav| - 1]) then [nav[|nav| - 1]] else [])
  }

  /** The items that are not groups but have a path, in order. */
  function Standalone(nav: seq<NavItem>): (r: seq<NavItem>)
    ensures |r| <= |nav|
  {
    if |nav| == 0 then []
    else
      var it := nav[|nav| - 1];
      Standalone(nav[..|nav| - 1]) + (if !IsGroup(it) && Truthy(it.path) then [it] else [])
  }

  /** Every group is a section and every other item with a path a standalone page; the rest is dropped. */
  lemma {:induction false} Partition(nav: seq<NavItem>)
    ensures forall it :: it in Sections(nav) <==> it in nav && IsGroup(it)
    ensures forall it :: it in Standalone(nav) <==> it in nav && !IsGroup(it) && Truthy(it.path)
    ensures |Sections(nav)| + |Standalone(nav)| <= |nav|
    decreases |nav|
  {
    if |nav| > 0 {
      var init := nav[..|nav| - 1];
      Partition(init);
      assert nav == init + [nav[|nav| - 1]];
    }
  }

  lemma PartitionStep(nav: seq<NavItem>, i: nat)
    requires i < |nav|
    ensures Sections(nav[..i + 1]) == Sections(nav[..i]) + (if IsGroup(nav[i]) then [nav[i]] else [])
    ensures Standalone(nav[..i + 1]) == Standalone(nav[..i]) + (if !IsGroup(nav[i]) && Truthy(nav[i].path) then [nav[i]] else [])
  {
    assert nav[..i + 1][..i] == nav[..i];
  }

  /** A section's block: its heading, its nav lines and a blank line. */
  function SectionBlock(lk: Lookup, section: NavItem): seq<string> {
    ["### " + section.title] + (if section.items.Items? then NavLines(lk, section.items.list) else []) + [""]
  }

  lemma AppendBlock<X>(before: seq<X>, a: seq<X>, b: seq<X>, c: seq<X>)
    ensures before + a + b + c == before + (a + b + c)
  {
  }

  /** One block per section, in order. */
  function SectionLines(lk: Lookup, sections: seq<NavItem>): seq<string> {
    if |sections| == 0 then []
    else SectionLines(lk, sections[..|sections| - 1]) + SectionBlock(lk, sections[|sections| - 1])
  }

  lemma SectionLinesStep(lk: Lookup, sections: seq<NavItem>, j: nat)
    requires j < |sections|
    ensures SectionLines(lk, sections[..j + 1]) == SectionLines(lk, sections[..j]) + SectionBlock(lk, sections[j])
  {
    assert sections[..j + 1][..j] == sections[..j];
  }

  /** The standalone pages under "Pages", when there are any. */
  function PagesBlock(lk: Lookup, standalone: seq<NavItem>): seq<string> {
    if |standalone| > 0 then ["### Pages"] + NavLines(lk, standalone) + [""] else []
  }

  /** The table of contents: the standalone pages under "Pages", then each section. */
  function TocLines(lk: Lookup, nav: seq<NavItem>): seq<string> {
    PagesBlock(lk, Standalone(nav)) + SectionLines(lk, Sections(nav))
  }

  /** The first loop of `renderLlmsTxt`: the nav split into standalone pages and sections, each in nav order. */
  method PartitionNav(nav: seq<NavItem>) returns (standalone: seq<NavItem>, sections: seq<NavItem>)
    ensures standalone == Standalone(nav) && sections == Sections(nav)
  {
    standalone := [];
    sections := [];
    var i := 0;
    while i < |nav|
      invariant 0 <= i <= |nav|
      invariant standalone == Standalone(nav[..i])
      invariant sections == Sections(nav[..i])
    {
      PartitionStep(nav, i);
      var item := nav[i];
      if IsGroup(item) {
        sections := sections + [item];
      } else if Truthy(item.path) {
        standalone := standalone + [item];
      }
      i := i + 1;
    }
    assert nav[..|nav|] == nav;
  }

  /** `renderLlmsTxt`. */
  function LlmsTxt(lk: Lookup, nav: seq<NavItem>, name: Option<string>, description: Option<string>, dir: string): string {
    Finish(HeaderLines(name, description, dir) + TocLines(lk, nav))
  }

  /** When line `k - 1` ends in a non-blank, the output starts with the first `k` lines exactly. */
  lemma FinishPrefixExact(lines: seq<string>, k: nat)
    requires 1 <= k <= |lines|
    requires |lines[k - 1]| > 0 && !IsSpace(lines[k - 1][|lines[k - 1]| - 1])
    ensures StartsWith(Finish(lines), Join(lines[..k], "\n"))
  {
    FinishPrefix(lines, k);
    var x := Join(lines[..k], "\n");
    var last := lines[k - 1];
    if k >= 2 {
      assert lines[..k] == lines[..k - 1] + [last];
      JoinAppend(lines[..k - 1], [last], "\n");
    } else {
      assert lines[..k] == [last];
    }
    assert x[|x| - 1] == last[|last| - 1];
    TrimEndKeeps(x, |x| - 1);
  }

  /** A Markdown document opened by a heading line and closed by the table of contents heading and a blank line. */
  lemma HeadShape(head: seq<string>, toc: seq<string>)
    requires |head| >= 2 && |head[0]| > 0 && head[0][0] == '#'
    requires head[|head| - 2] == TocHeading
    ensures StartsWith(Finish(head + toc), Join(head[..|head| - 1], "\n"))
    ensures var t := Finish(head + toc); |t| >= 2 && t[|t| - 1] == '\n' && !IsSpace(t[|t| - 2])
  {
    var lines := head + toc;
    assert lines[0] == head[0];
    FinishShape(lines);
    var k := |head| - 1;
    assert lines[..k] == head[..k];
    assert lines[k - 1] == TocHeading;
    FinishPrefixExact(lines, k);
  }

  /** llms.txt opens with its fixed head, up to the table of contents heading, and ends in one `\n` after a non-blank. */
  lemma LlmsTxtShape(lk: Lookup, nav: seq<NavItem>, name: Option<string>, description: Option<string>, dir: string)
    ensures var h := HeaderLines(name, description, dir);
      StartsWith(LlmsTxt(lk, nav, name, description, dir), Join(h[..|h| - 1], "\n"))
    ensures var t := LlmsTxt(lk, nav, name, description, dir);
      |t| >= 2 && t[|t| - 1] == '\n' && !IsSpace(t[|t| - 2])
  {
    HeadShape(HeaderLines(name, description, dir), TocLines(lk, nav));
  }

  /** The first line of a body that does not open with a line break. */
  function HeadingLine(body: string): (r: string)
    requires |body| > 0 && body[0] != '\n'
    ensures |r| > 0 && r[0] == body[0] && StartsWith(body, r) && '\n' !in r
    ensures r == body || (|r| < |body| && body[|r|] == '\n')
  {
    var k := IndexOfChar(body, '\n');
    if k == -1 then body else body[..k]
  }

  /** What follows the first line, leading whitespace dropped. */
  function AfterHeading(body: string): string {
    var k := IndexOfChar(body, '\n');
    if k == -1 then "" else TrimStart(body[k + 1..])
  }

  /** The quoted description, with the blank line before it. */
  function DescriptionLines(description: Option<string>): (r: seq<string>)
    ensures |r| == 0 || |r| == 2
  {
    if Truthy(description) then ["", "> " + description.value] else []
  }

  /** A first line, the description lines, then the text after a blank line when there is any. */
  function Assemble(first: string, desc: seq<string>, rest: string): (r: seq<string>)
    ensures |r| > 0 && r[0] == first
    ensures |desc| == 2 ==> |r| >= 3 && r[1] == desc[0] && r[2] == desc[1]
  {
    [first] + desc + (if rest != "" then ["", rest] else [])
  }

  /** The lines of `renderLlmsPage`: the body's own heading line, or the title as one. */
  function PageLines(page: LlmsPage): (r: seq<string>)
    ensures |r| > 0 && |r[0]| > 0 && r[0][0] == '#'
    ensures Truthy(page.description) ==> |r| >= 3 && r[1] == "" && r[2] == "> " + page.description.value
  {
    var body := Trim(page.body);
    if |body| > 0 && body[0] == '#' then
      Assemble(HeadingLine(body), DescriptionLines(page.description), AfterHeading(body))
    else
      Assemble("# " + page.title, DescriptionLines(page.description), body)
  }

  /** `renderLlmsPage`. */
  function RenderLlmsPage(page: LlmsPage): string {
    Finish(PageLines(page))
  }

  /**
   * A page file keeps the body's own first line when the body opens with a
   * heading, and is headed by the title otherwise; it ends in one `\n`
   * after a non-blank character.
   */
  lemma LlmsPageShape(page: LlmsPage)
    ensures var t := RenderLlmsPage(page); |t| >= 2 && t[|t| - 1] == '\n' && !IsSpace(t[|t| - 2])
    ensures var body := Trim(page.body);
      |body| > 0 && body[0] == '#' ==> StartsWith(RenderLlmsPage(page), TrimEnd(HeadingLine(body)))
    ensures var body := Trim(page.body);
      !(|body| > 0 && body[0] == '#') ==> StartsWith(RenderLlmsPage(page), TrimEnd("# " + page.title))
  {
    var lines := PageLines(page);
    FinishShape(lines);
    FinishPrefix(lines, 1);
    assert lines[..1] == [lines[0]];
  }

  lemma JoinThree(a: string, b: string, c: string, sep: string)
    ensures Join([a, b, c], sep) == a + sep + b + sep + c
  {
    assert [a, b, c][1..] == [b, c];
    assert [b, c][1..] == [c];
    assert Join([b, c], sep) == b + sep + c;
  }

  lemma FinishQuote(lines: seq<string>, d: string)
    requires |lines| >= 3 && lines[1] == "" && lines[2] == "> " + d
    ensures StartsWith(Finish(lines), TrimEnd(lines[0] + "\n\n> " + d))
  {
    FinishPrefix(lines, 3);
    assert lines[..3] == [lines[0], "", "> " + d];
    JoinThree(lines[0], "", "> " + d, "\n");
    assert lines[0] + "\n" + "" + "\n" + ("> " + d) == lines[0] + "\n\n> " + d;
  }

  /** A page with a description shows it as a quote after its first line and a blank line. */
  lemma LlmsPageDescription(page: LlmsPage)
    requires Truthy(page.description)
    ensures StartsWith(RenderLlmsPage(page), TrimEnd(PageLines(page)[0] + "\n\n> " + page.description.value))
  {
    FinishQuote(PageLines(page), page.description.value);
  }

  /** The byte order mark `writeLlmsFile` and `writeLlmsSubpages` put before every file they write. */
  const Bom := "\U{FEFF}"

  /**
   * The per-page files of `writeLlmsSubpages`: for each page, in order, its
   * path under the llms directory (the source path with a `.md` extension)
   * and its rendered text.
   */
  function PageFiles(pages: seq<LlmsPage>, dir: string): seq<(string, string)> {
    Map(PageFileIn(dir), pages)
  }

  function PageFileIn(dir: string): LlmsPage -> (string, string) {
    page => PageFile(page, dir)
  }

  /** One page's file: its path under the llms directory and its text after a byte order mark. */
  function PageFile(page: LlmsPage, dir: string): (string, string) {
    (dir + "/" + MarkdownExtensionToMd(page.sourcePath), Bom + RenderLlmsPage(page))
  }

  /**
   * A page's llms file is where its nav line in llms.txt links to: the
   * site path of the written file is `buildLlmsPath` of the page.
   */
  lemma PageFileLinked(pages: seq<LlmsPage>, dir: string, i: nat)
    requires i < |pages|
    requires |pages[i].sourcePath| == 0 || pages[i].sourcePath[0] != '/'
    ensures "/" + PageFiles(pages, dir)[i].0 == BuildLlmsPath(pages[i].sourcePath, dir)
  {
    var m := MarkdownExtensionToMd(pages[i].sourcePath);
    UnrootedStaysUnrooted(pages[i].sourcePath);
    assert "/" + (dir + "/" + m) == "/" + dir + "/" + m;
  }

  /**
   * `writeLlmsSubpages`' loop: one file per page, in page order, each the
   * page's `.md` path under the llms directory and its rendered text.
   */
  method WriteLlmsSubpages(pages: seq<LlmsPage>, dir: string) returns (written: seq<(string, string)>)
    ensures written == PageFiles(pages, dir)
  {
    written := [];
    for i := 0 to |pages|
      invariant written == PageFiles(pages[..i], dir)
    {
      MapSnoc(PageFileIn(dir), pages, i);
      written := written + [PageFile(pages[i], dir)];
    }
    assert pages[..|pages|] == pages;
  }

  /** Changing the extension of a path that does not start with `/` keeps it that way. */
  lemma UnrootedStaysUnrooted(s: string)
    requires |s| == 0 || s[0] != '/'
    ensures DropLeadingSlashes(MarkdownExtensionToMd(s)) == MarkdownExtensionToMd(s)
  {
    var m := MarkdownExtensionToMd(s);
    if EndsWith(ToLower(s), ".md") || EndsWith(ToLower(s), ".mdx") {
      var stem := StripMdExtension(s);
      assert m == stem + ".md";
      if |stem| > 0 {
        assert m[0] == stem[0] == s[0];
      } else {
        assert m[0] == '.';
      }
    }
  }

  /** What `writeLlmsFile` leaves: both outputs removed, or llms.txt and the per-page files written. */
  datatype LlmsOutput = Removed | Written(llmsTxt: string, pageFiles: seq<(string, string)>)

  /**
   * The module-level maps `llmsTitleByRoute`, `llmsDescriptionByRoute` and
   * `llmsPathByRoute`, and the renderers that read them.
   */
  class LlmsMaps {
    var titles: map<string, string>
    var descriptions: map<string, string>
    var paths: map<string, string>

    constructor()
      ensures titles == map[] && descriptions == map[] && paths == map[]
    {
      titles, descriptions, paths := map[], map[], map[];
    }

    function View(): Lookup
      reads this
    {
      Lookup(titles, descriptions, paths)
    }

    /** `seedLlmsMaps`: clear the three maps, then fill them page by page. */
    method Seed(pages: seq<LlmsPage>, dir: string)
      modifies this
      ensures titles == TitleMap(pages)
      ensures descriptions == DescriptionMap(pages)
      ensures paths == PathMap(pages, dir)
    {
      titles, descriptions, paths := map[], map[], map[];
      var i := 0;
      while i < |pages|
        invariant 0 <= i <= |pages|
        invariant titles == TitleMap(pages[..i])
        invariant descriptions == DescriptionMap(pages[..i])
        invariant paths == PathMap(pages[..i], dir)
      {
        assert pages[..i + 1][..i] == pages[..i];
        var page := pages[i];
        titles := titles[page.routePath := page.title];
        if Truthy(page.description) {
          descriptions := descriptions[page.routePath := page.description.value];
        }
        paths := paths[page.routePath := BuildLlmsPath(page.sourcePath, dir)];
        i := i + 1;
      }
      assert pages[..|pages|] == pages;
    }

    /** The line `renderNavItems` pushes for one item or child: none when its path is missing or is llms.txt. */
    method RenderEntry(path: Option<string>, caption: string) returns (line: seq<string>)
      ensures line == LineFor(View(), path, caption)
    {
      line := [];
      var p := NormalizeLlmsPath(path);
      if p.Some? && p.value != LlmsTxtPath {
        line := [RenderNavLine(View(), p.value, caption)];
      }
    }

    /** The inner loop of `renderNavItems`: one line per child of a group that has a usable path. */
    method RenderLeaves(children: seq<NavItem>) returns (lines: seq<string>)
      ensures lines == LinesOf(View(), LeafEntries(children))
    {
      var lk := View();
      lines := [];
      var j := 0;
      while j < |children|
        invariant 0 <= j <= |children|
        invariant lines == LinesOf(lk, LeafEntries(children[..j]))
      {
        var child := children[j];
        LeafLinesStep(lk, children, j);
        var line := RenderEntry(child.path, child.title);
        lines := lines + line;
        j := j + 1;
      }
      assert children[..|children|] == children;
    }

    /** `renderNavItems`: the groups' children and the other items, skipping those without a usable path. */
    method RenderNavItems(items: seq<NavItem>) returns (lines: seq<string>)
      ensures lines == NavLines(View(), items)
    {
      var lk := View();
      lines := [];
      var i := 0;
      while i < |items|
        invariant 0 <= i <= |items|
        invariant lines == LinesOf(lk, NavEntries(items[..i]))
      {
        var item := items[i];
        if IsGroup(item) {
          GroupLinesStep(lk, items, i);
          var childLines := RenderLeaves(item.items.list);
          lines := lines + childLines;
        } else {
          ItemLinesStep(lk, items, i);
          var line := RenderEntry(item.path, item.title);
          lines := lines + line;
        }
        i := i + 1;
      }
      assert items[..|items|] == items;
    }

    /** The "Pages" block of `renderLlmsTxt`. */
    method RenderPages(standalone: seq<NavItem>) returns (lines: seq<string>)
      ensures lines == PagesBlock(View(), standalone)
    {
      lines := [];
      if |standalone| > 0 {
        var rendered := RenderNavItems(standalone);
        lines := ["### Pages"] + rendered + [""];
      }
    }

    /** The section loop of `renderLlmsTxt`: per section its heading, its nav lines and a blank line. */
    method RenderSections(sections: seq<NavItem>) returns (lines: seq<string>)
      ensures lines == SectionLines(View(), sections)
    {
      var lk := View();
      lines := [];
      var j := 0;
      while j < |sections|
        invariant 0 <= j <= |sections|
        invariant lines == SectionLines(lk, sections[..j])
      {
        SectionLinesStep(lk, sections, j);
        ghost var before := lines;
        var section := sections[j];
        ghost var mid := if section.items.Items? then NavLines(lk, section.items.list) else [];
        lines := lines + ["### " + section.title];
        if section.items.Items? {
          var rendered := RenderNavItems(section.items.list);
          lines := lines + rendered;
        }
        lines := lines + [""];
        AppendBlock(before, ["### " + section.title], mid, [""]);
        j := j + 1;
      }
      assert sections[..|sections|] == sections;
    }

    /**
     * `writeLlmsFile`: unless llms output is switched off (`enabled: false`),
     * collect the pages, seed the maps, take the configured nav or else the
     * one built from the pages' source paths and titles, and write llms.txt
     * and the per-page files. Switched off, both are removed and the maps
     * are left as they were.
     */
    method WriteLlmsFile(files: seq<DocFile>, enabled: Option<bool>, llmsDir: Option<string>,
                         configNav: Option<seq<NavItem>>, name: Option<string>, description: Option<string>)
      returns (out: LlmsOutput)
      modifies this
      ensures enabled == Some(false) ==> out == Removed && View() == old(View())
      ensures enabled != Some(false) ==>
        var pages := DocPages(files);
        var dir := NormalizeLlmsDir(llmsDir);
        var nav := NavTree.NavFromPaths(SourcePathsOf(pages), configNav, SourceFile, NavTree.ByRoute(TitleMap(pages)));
        View() == Seeded(pages, dir)
        && out == Written(Bom + LlmsTxt(Seeded(pages, dir), nav, name, description, dir), PageFiles(pages, dir))
    {
      if enabled == Some(false) {
        return Removed;
      }
      var dir := NormalizeLlmsDir(llmsDir);
      var pages := CollectDocsPages(files);
      Seed(pages, dir);
      var nav := NavTree.NavFromPaths(SourcePathsOf(pages), configNav, SourceFile, NavTree.ByRoute(TitleMap(pages)));
      var text := RenderLlmsTxt(nav, name, description, dir);
      var written := WriteLlmsSubpages(pages, dir);
      out := Written(Bom + text, written);
    }

    /** `renderLlmsTxt`: the head, the standalone pages, then one block per section. */
    method RenderLlmsTxt(nav: seq<NavItem>, name: Option<string>, description: Option<string>, dir: string)
      returns (text: string)
      ensures text == LlmsTxt(View(), nav, name, description, dir)
    {
      var header := HeaderLines(name, description, dir);
      var standalone, sections := PartitionNav(nav);
      var pages := RenderPages(standalone);
      var blocks := RenderSections(sections);
      Assoc(header, pages, blocks);
      text := Finish(header + pages + blocks);
    }
  }
}
