/**
 * The documentation store (apps/web/src/lib/gittydocs/store.ts): the page
 * map, the navigation, the search index and the page on display, filled by
 * `initializeDocs` from the generated page list and switched by `loadPage`.
 */
module Store {
  import opened Wrappers
  import opened Text
  import opened Types
  import opened Routes
  import opened NavTree
  import opened Search
  import opened Config

  /** `pages.set(page.routePath, page)` for every page in order: the last page of a route wins. */
  function PageMap(docs: seq<DocsPage>): map<string, DocsPage> {
    if |docs| == 0 then map[]
    else PageMap(docs[..|docs| - 1])[docs[|docs| - 1].routePath := docs[|docs| - 1]]
  }

  /** `titleByRoute[page.routePath] = page.title` for every page in order. */
  function RouteTitles(docs: seq<DocsPage>): map<string, string> {
    if |docs| == 0 then map[]
    else RouteTitles(docs[..|docs| - 1])[docs[|docs| - 1].routePath := docs[|docs| - 1].title]
  }

  /** The texts the search index holds per route after every page was added. */
  function IndexMap(docs: seq<DocsPage>): map<string, seq<string>> {
    if |docs| == 0 then map[]
    else IndexMap(docs[..|docs| - 1])[docs[|docs| - 1].routePath := IndexedTexts(docs[|docs| - 1])]
  }

  /** `sourcePaths.push(page.sourcePath)` for every page in order. */
  function SourcePaths(docs: seq<DocsPage>): (r: seq<string>)
    ensures |r| == |docs|
    ensures forall i :: 0 <= i < |docs| ==> r[i] == docs[i].sourcePath
  {
    if |docs| == 0 then [] else SourcePaths(docs[..|docs| - 1]) + [docs[|docs| - 1].sourcePath]
  }

  /** The navigation `initializeDocs` installs: the configured nav, else the one built from the source paths. */
  function StoreNav(config: Option<DocsConfig>, docs: seq<DocsPage>): seq<NavItem> {
    ResolveNavItems(config, NavFromPaths(SourcePaths(docs), None, Plain, ByRoute(RouteTitles(docs))))
  }

  /** `pages.get("/") || null`: a stored page object is never falsy. */
  function HomePage(pages: map<string, DocsPage>): (r: Option<DocsPage>)
    ensures r.Some? <==> "/" in pages
    ensures r.Some? ==> r.value == pages["/"]
  {
    if "/" in pages then Some(pages["/"]) else None
  }

  /** The page `loadPage` finds for a requested route. */
  function Load(pages: map<string, DocsPage>, routePath: string): (r: Option<DocsPage>)
    ensures r.Some? <==> NormalizeRoutePath(routePath) in pages
    ensures r.Some? ==> r.value == pages[NormalizeRoutePath(routePath)]
  {
    var key := NormalizeRoutePath(routePath);
    if key in pages then Some(pages[key]) else None
  }

  /** A route is in the page map exactly when some page has it. */
  lemma {:induction false} PageMapDomain(docs: seq<DocsPage>, route: string)
    ensures route in PageMap(docs) <==> exists i :: 0 <= i < |docs| && docs[i].routePath == route
  {
    if |docs| > 0 {
      var init := docs[..|docs| - 1];
      PageMapDomain(init, route);
      if route in PageMap(init) {
        var i :| 0 <= i < |init| && init[i].routePath == route;
        assert docs[i].routePath == route;
      }
      if exists i :: 0 <= i < |docs| && docs[i].routePath == route {
        var i :| 0 <= i < |docs| && docs[i].routePath == route;
        if i < |init| {
          assert init[i].routePath == route;
        }
      }
    }
  }

  /** The page stored for a route is the last page with that route. */
  lemma {:induction false} PageMapLastWins(docs: seq<DocsPage>, i: int)
    requires 0 <= i < |docs|
    requires forall j :: i < j < |docs| ==> docs[j].routePath != docs[i].routePath
    ensures docs[i].routePath in PageMap(docs) && PageMap(docs)[docs[i].routePath] == docs[i]
  {
    if i < |docs| - 1 {
      var init := docs[..|docs| - 1];
      forall j | i < j < |init| ensures init[j].routePath != init[i].routePath {
        assert init[j] == docs[j];
      }
      PageMapLastWins(init, i);
    }
  }

  /** The title map and the page map have the same routes and agree on titles. */
  lemma {:induction false} TitlesFollowPages(docs: seq<DocsPage>)
    ensures RouteTitles(docs).Keys == PageMap(docs).Keys
    ensures forall r :: r in RouteTitles(docs) ==> RouteTitles(docs)[r] == PageMap(docs)[r].title
  {
    if |docs| > 0 {
      TitlesFollowPages(docs[..|docs| - 1]);
    }
  }

  /** The search index keys are the page map's routes, and each holds that page's texts. */
  lemma {:induction false} IndexFollowsPages(docs: seq<DocsPage>)
    ensures IndexMap(docs).Keys == PageMap(docs).Keys
    ensures forall r :: r in IndexMap(docs) ==> IndexMap(docs)[r] == IndexedTexts(PageMap(docs)[r])
  {
    if |docs| > 0 {
      IndexFollowsPages(docs[..|docs| - 1]);
    }
  }

  /** A trailing slash on a request does not change the page found; nor does an empty request for the root. */
  lemma LoadIgnoresTrailingSlash(pages: map<string, DocsPage>, route: string)
    requires |route| > 0 && route[0] == '/'
    requires route == "/" || route[|route| - 1] != '/'
    ensures Load(pages, route + "/") == Load(pages, route)
    ensures Load(pages, "") == Load(pages, "/")
  {
    var p := route + "/";
    assert p != "" && p != "/" by {
      assert |p| == |route| + 1;
      if route == "/" { assert |p| == 2; }
    }
    assert EndsWith(p, "/") by { assert p[|p| - 1..] == "/"; }
    if route == "/" {
      assert NormalizeRoutePath(p) + "/" == "//";
    } else {
      assert NormalizeRoutePath(route) == route by {
        assert !EndsWith(route, "/") by {
          assert route[|route| - 1..] != "/" by { assert route[|route| - 1..][0] == route[|route| - 1]; }
        }
      }
    }
  }

  /** Loading the route of the last page with that route finds that page. */
  lemma LoadFindsPage(docs: seq<DocsPage>, i: int)
    requires 0 <= i < |docs|
    requires forall j :: i < j < |docs| ==> docs[j].routePath != docs[i].routePath
    requires docs[i].routePath == "/" || (docs[i].routePath != "" && docs[i].routePath[|docs[i].routePath| - 1] != '/')
    ensures Load(PageMap(docs), docs[i].routePath) == Some(docs[i])
  {
    PageMapLastWins(docs, i);
    var r := docs[i].routePath;
    if r != "/" {
      assert !EndsWith(r, "/") by {
        assert r[|r| - 1..] != "/" by { assert r[|r| - 1..][0] == r[|r| - 1]; }
      }
    }
  }

  /** One more page extends each of the maps and the path list by that page. */
  lemma StoreStep(docs: seq<DocsPage>, i: int)
    requires 0 <= i < |docs|
    ensures PageMap(docs[..i + 1]) == PageMap(docs[..i])[docs[i].routePath := docs[i]]
    ensures RouteTitles(docs[..i + 1]) == RouteTitles(docs[..i])[docs[i].routePath := docs[i].title]
    ensures IndexMap(docs[..i + 1]) == IndexMap(docs[..i])[docs[i].routePath := IndexedTexts(docs[i])]
    ensures SourcePaths(docs[..i + 1]) == SourcePaths(docs[..i]) + [docs[i].sourcePath]
  {
    assert docs[..i + 1][..i] == docs[..i];
  }

  /** The maps and the path list as the loop of `initializeDocs` has built them from `docs`. */
  predicate Stored(docs: seq<DocsPage>, byRoute: map<string, DocsPage>, sourcePaths: seq<string>,
                   titleByRoute: map<string, string>, pages: map<string, DocsPage>, indexed: map<string, seq<string>>) {
    byRoute == PageMap(docs) && sourcePaths == SourcePaths(docs) && titleByRoute == RouteTitles(docs)
    && pages == PageMap(docs) && indexed == IndexMap(docs)
  }

  lemma StoredStep(docs: seq<DocsPage>, i: int, byRoute: map<string, DocsPage>, sourcePaths: seq<string>,
                   titleByRoute: map<string, string>, pages: map<string, DocsPage>, indexed: map<string, seq<string>>)
    requires 0 <= i < |docs|
    requires Stored(docs[..i], byRoute, sourcePaths, titleByRoute, pages, indexed)
    ensures var p := docs[i];
      Stored(docs[..i + 1], byRoute[p.routePath := p], sourcePaths + [p.sourcePath],
        titleByRoute[p.routePath := p.title], pages[p.routePath := p], indexed[p.routePath := IndexedTexts(p)])
  {
    StoreStep(docs, i);
  }

  /**
   * The loop of `initializeDocs`: each page in order is stored under its
   * route, its source path is appended, its title recorded under its route
   * and the page added to a new search index.
   */
  method CollectPages(docs: seq<DocsPage>)
    returns (byRoute: map<string, DocsPage>, sourcePaths: seq<string>, titleByRoute: map<string, string>, index: SearchIndex)
    ensures byRoute == PageMap(docs) && sourcePaths == SourcePaths(docs) && titleByRoute == RouteTitles(docs)
    ensures fresh(index) && index.pages == PageMap(docs) && index.indexed == IndexMap(docs)
  {
    byRoute := map[];
    sourcePaths := [];
    titleByRoute := map[];
    index := new SearchIndex();
    var i := 0;
    while i < |docs|
      invariant 0 <= i <= |docs|
      invariant fresh(index)
      invariant Stored(docs[..i], byRoute, sourcePaths, titleByRoute, index.pages, index.indexed)
    {
      var page := docs[i];
      StoredStep(docs, i, byRoute, sourcePaths, titleByRoute, index.pages, index.indexed);
      byRoute := byRoute[page.routePath := page];
      sourcePaths := sourcePaths + [page.sourcePath];
      titleByRoute := titleByRoute[page.routePath := page.title];
      index.AddPage(page);
      i := i + 1;
    }
    assert docs[..i] == docs;
  }

  class DocsStore {
    const config: Option<DocsConfig>
    var nav: seq<NavItem>
    var pages: map<string, DocsPage>
    var currentPage: Option<DocsPage>
    var searchIndex: SearchIndex

    /** `createDocsStore`: the configuration, with no nav, no pages and no page on display. */
    constructor(config: Option<DocsConfig>)
      ensures this.config == config && nav == [] && pages == map[] && currentPage == None
      ensures fresh(searchIndex) && searchIndex.pages == map[] && searchIndex.indexed == map[]
    {
      this.config := config;
      nav := [];
      pages := map[];
      currentPage := None;
      searchIndex := new SearchIndex();
    }

    /** The page map the store serves and the one the search index resolves ids in agree. */
    predicate Consistent()
      reads this, searchIndex
    {
      searchIndex.pages == pages
    }

    /**
     * `initializeDocs`: every page is stored under its route and added to a
     * new search index; the nav is the configured one or the one built from
     * the pages' source paths and titles; the root page, if any, is shown.
     */
    method InitializeDocs(docs: seq<DocsPage>)
      modifies this
      ensures pages == PageMap(docs)
      ensures nav == StoreNav(config, docs)
      ensures fresh(searchIndex) && searchIndex.pages == PageMap(docs) && searchIndex.indexed == IndexMap(docs)
      ensures currentPage == HomePage(PageMap(docs))
      ensures Consistent()
    {
      var byRoute, sourcePaths, titleByRoute, index := CollectPages(docs);
      nav := ResolveNavItems(config, NavFromPaths(sourcePaths, None, Plain, ByRoute(titleByRoute)));
      assert nav == StoreNav(config, docs);
      pages := byRoute;
      searchIndex := index;
      currentPage := HomePage(byRoute);
    }

    /**
     * `loadPage`: the request is normalised; a stored page becomes the page
     * on display and is returned, otherwise nothing is shown and nothing is
     * returned. Nothing else changes.
     */
    method LoadPage(routePath: string) returns (page: Option<DocsPage>)
      modifies this
      ensures page == Load(pages, routePath) && currentPage == page
      ensures pages == old(pages) && nav == old(nav)
      ensures searchIndex == old(searchIndex)
      ensures old(Consistent()) ==> Consistent()
    {
      var key := NormalizeRoutePath(routePath);
      if key in pages {
        page := Some(pages[key]);
      } else {
        page := None;
      }
      currentPage := page;
    }
  }
}
