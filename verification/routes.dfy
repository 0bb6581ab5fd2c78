/**
 * Route paths. Six copies of `toRoutePath` share one core (collapse a
 * trailing `index`, then a trailing `readme`, then ensure a leading `/`) and
 * differ only in the rewrite they apply first:
 *   - `Slug`       drops one optional leading `/` (docs.context.tsx,
 *                  docs-data.ts, gen-velite-routes.ts);
 *   - `SourceFile` turns `\` into `/` and drops a `.md`/`.mdx` extension in
 *                  any letter case (both prepare-docs.ts scripts);
 *   - `Plain`      applies nothing (nav.ts `getRoutePath`, whose caller has
 *                  already dropped the extension).
 * The module also holds `normalizeRoutePath` (store.ts) and the sorted,
 * duplicate-free route list written by gen-velite-routes.ts.
 */
module Routes {
  import opened Text

  datatype RouteStyle = Slug | SourceFile | Plain

  /** The rewrite a copy applies before the shared core. */
  function Prepare(style: RouteStyle, s: string): string {
    match style
    case Slug => if |s| > 0 && s[0] == '/' then s[1..] else s
    case SourceFile => StripMdExtension(ReplaceChar(s, '\\', '/'))
    case Plain => s
  }

  /**
   * `route.replace(/\/?w$/, "")`: the leftmost match of the pattern is the
   * one that includes the slash, so `/w` is removed when present and a bare
   * trailing `w` otherwise.
   */
  function DropTrailingWord(route: string, w: string): (r: string)
    ensures |r| <= |route| && r == route[..|r|]
  {
    if EndsWith(route, "/" + w) then route[..|route| - |w| - 1]
    else if EndsWith(route, w) then route[..|route| - |w|]
    else route
  }

  /** `x || "/"`. */
  function OrRoot(x: string): string {
    if x == "" then "/" else x
  }

  /** The `index` step: its test and its removal are both case-sensitive. */
  function CollapseIndex(route: string): string {
    if EndsWith(route, "/index") || route == "index" then OrRoot(DropTrailingWord(route, "index"))
    else route
  }

  /**
   * The `readme` step: the bare-name test lowercases the route, but the
   * removal pattern is case-sensitive, so `README` passes the test and is
   * then left as it is.
   */
  function CollapseReadme(route: string): string {
    if EndsWith(route, "/readme") || ToLower(route) == "readme" then OrRoot(DropTrailingWord(route, "readme"))
    else route
  }

  function EnsureLeadingSlash(route: string): (r: string)
    ensures |r| > 0 && r[0] == '/'
  {
    if StartsWith(route, "/") then route else "/" + route
  }

  /** `toRoutePath` in the given copy: always a path starting with `/`. */
  function RouteOf(style: RouteStyle, s: string): (r: string)
    ensures |r| > 0 && r[0] == '/'
  {
    EnsureLeadingSlash(CollapseReadme(CollapseIndex(Prepare(style, s))))
  }

  /** A parent path that neither collapse step touches. */
  predicate PlainParent(p: string) {
    p != "" && p[0] != '/' && !EndsWith(p, "/index") && p != "index"
    && !EndsWith(p, "/readme") && ToLower(p) != "readme"
  }

  lemma EndsWithWord(p: string, w: string)
    ensures EndsWith(p + "/" + w, "/" + w) && (p + "/" + w)[..|p|] == p
  {
    assert (p + "/" + w)[|p|..] == "/" + w;
  }

  /** `index` alone is the root route. */
  lemma IndexIsRoot(style: RouteStyle)
    requires style != SourceFile
    ensures RouteOf(style, "index") == "/"
  {
    assert Prepare(style, "index") == "index";
    assert EndsWith("index", "index");
    assert DropTrailingWord("index", "index") == "";
  }

  /** Removing the trailing segment `/w` leaves the parent. */
  lemma DropWordParent(p: string, w: string)
    ensures DropTrailingWord(p + "/" + w, w) == p
  {
    EndsWithWord(p, w);
  }

  /** Neither collapse step touches a plain parent, and it gains only its leading slash. */
  lemma PlainParentKept(p: string)
    requires PlainParent(p)
    ensures CollapseIndex(p) == p && CollapseReadme(p) == p && EnsureLeadingSlash(p) == "/" + p
  {
    assert !StartsWith(p, "/");
  }

  /** A copy other than the source-file one leaves a path without a leading slash as it is. */
  lemma PrepareKeeps(style: RouteStyle, s: string)
    requires style != SourceFile && (s == [] || s[0] != '/')
    ensures Prepare(style, s) == s
  {
  }

  /** The `index` step on `p/index`. */
  lemma CollapseIndexChild(p: string)
    requires p != ""
    ensures CollapseIndex(p + "/index") == p
  {
    var s := p + "/index";
    EndsWithWord(p, "index");
    DropWordParent(p, "index");
    assert EndsWith(s, "/index");
    assert OrRoot(DropTrailingWord(s, "index")) == p;
  }

  /** The `readme` step on `p/readme`. */
  lemma CollapseReadmeChild(p: string)
    requires p != ""
    ensures CollapseReadme(p + "/readme") == p
  {
    var s := p + "/readme";
    EndsWithWord(p, "readme");
    DropWordParent(p, "readme");
    assert EndsWith(s, "/readme");
    assert OrRoot(DropTrailingWord(s, "readme")) == p;
  }

  /** A trailing `/index` segment collapses to its parent. */
  lemma IndexCollapsesToParent(style: RouteStyle, p: string)
    requires style != SourceFile
    requires PlainParent(p)
    ensures RouteOf(style, p + "/index") == "/" + p
  {
    var s := p + "/index";
    EndsWithWord(p, "index");
    PrepareKeeps(style, s);
    CollapseIndexChild(p);
    PlainParentKept(p);
  }

  /** A trailing lowercase `/readme` segment collapses to its parent. */
  lemma ReadmeCollapsesToParent(style: RouteStyle, p: string)
    requires style != SourceFile
    requires PlainParent(p)
    ensures RouteOf(style, p + "/readme") == "/" + p
  {
    var s := p + "/readme";
    EndsWithWord(p, "readme");
    PrepareKeeps(style, s);
    assert !EndsWith(s, "/index") by {
      assert s[|s| - 1] == 'e' != 'x';
    }
    assert CollapseIndex(s) == s;
    CollapseReadmeChild(p);
    PlainParentKept(p);
  }

  /** A route that neither step touches only gains its leading slash. */
  lemma PlainRouteKept(style: RouteStyle, p: string)
    requires style != SourceFile
    requires PlainParent(p)
    ensures RouteOf(style, p) == "/" + p
  {
    assert Prepare(style, p) == p;
    assert !StartsWith(p, "/");
  }

  /** The slug copies strip one leading slash, so `/x` and `x` give the same route. */
  lemma SlugLeadingSlash(s: string)
    requires s == [] || s[0] != '/'
    ensures RouteOf(Slug, "/" + s) == RouteOf(Slug, s)
  {
    assert ("/" + s)[1..] == s;
  }

  /** On a path with no leading slash the slug copies agree with the nav copy. */
  lemma SlugAgreesWithPlain(s: string)
    requires s == [] || s[0] != '/'
    ensures RouteOf(Slug, s) == RouteOf(Plain, s)
  {
  }

  lemma ReadmeMdLower()
    ensures ToLower("README") == "readme"
  {
    var s := "README";
    assert ToLower(s)[0] == 'r' && ToLower(s)[1] == 'e' && ToLower(s)[2] == 'a';
    assert ToLower(s)[3] == 'd' && ToLower(s)[4] == 'm' && ToLower(s)[5] == 'e';
  }

  lemma ReadmeMdPrepared()
    ensures Prepare(SourceFile, "README.md") == "README"
  {
    var s := "README.md";
    assert ReplaceChar(s, '\\', '/') == s;
    var low := ToLower(s);
    assert low[6] == '.' && low[7] == 'm' && low[8] == 'd';
    assert low[6..] == ".md";
    assert EndsWith(low, ".md");
  }

  /**
   * A source file named `README.md` keeps its capitals: the bare-name test
   * passes, but the case-sensitive removal leaves `README`, so the route is
   * `/README`.
   */
  lemma ReadmeFileRoute()
    ensures RouteOf(SourceFile, "README.md") == "/README"
  {
    ReadmeMdPrepared();
    ReadmeMdLower();
    var s := "README";
    assert !EndsWith(s, "/index") && s != "index";
    assert CollapseIndex(s) == s;
    assert !EndsWith(s, "readme") by { assert s[0] == 'R'; }
    assert !EndsWith(s, "/readme");
    assert DropTrailingWord(s, "readme") == s;
    assert CollapseReadme(s) == s;
  }

  lemma IndexMdxPrepared()
    ensures Prepare(SourceFile, "index.mdx") == "index"
  {
    var s := "index.mdx";
    assert ReplaceChar(s, '\\', '/') == s;
    var low := ToLower(s);
    assert low[6] == 'm' && low[7] == 'd' && low[8] == 'x';
    assert !EndsWith(low, ".md") by { assert low[8] != 'd'; }
    assert low[5..] == ".mdx";
    assert EndsWith(low, ".mdx");
  }

  /** `index.mdx` is the root route. */
  lemma IndexFileRoute()
    ensures RouteOf(SourceFile, "index.mdx") == "/"
  {
    IndexMdxPrepared();
    assert DropTrailingWord("index", "index") == "";
  }

  /**
   * store.ts `normalizeRoutePath`: the empty path and `/` are the root;
   * any other path loses exactly one trailing slash.
   */
  function NormalizeRoutePath(p: string): (r: string)
    ensures p == "" || p == "/" ==> r == "/"
    ensures p != "" && p != "/" ==> (if EndsWith(p, "/") then r + "/" == p else r == p)
  {
    if p == "" || p == "/" then "/"
    else if p[|p| - 1] == '/' then p[..|p| - 1]
    else p
  }

  /** Only one slash goes: a path ending in two slashes keeps one. */
  lemma NormalizeDropsOneSlash(p: string)
    requires p != ""
    ensures NormalizeRoutePath(p + "//") == p + "/"
  {
    assert (p + "//")[..|p| + 1] == p + "/";
  }

  // ---------------------------------------------------------------------
  // The static route list: `Array.from(new Set(["/", ...routes])).sort()`.
  // The default sort compares UTF-16 code units; on the modelled characters
  // that is the lexicographic order of `char` values.
  // ---------------------------------------------------------------------

  predicate StrLess(a: string, b: string)
    decreases |a|
  {
    if |a| == 0 then |b| > 0
    else if |b| == 0 then false
    else if a[0] < b[0] then true
    else a[0] == b[0] && StrLess(a[1..], b[1..])
  }

  lemma {:induction false} StrLessIrreflexive(a: string)
    ensures !StrLess(a, a)
    decreases |a|
  {
    if |a| > 0 { StrLessIrreflexive(a[1..]); }
  }

  lemma {:induction false} StrLessTransitive(a: string, b: string, c: string)
    requires StrLess(a, b) && StrLess(b, c)
    ensures StrLess(a, c)
    decreases |a|
  {
    if |a| > 0 && a[0] == b[0] && b[0] == c[0] {
      StrLessTransitive(a[1..], b[1..], c[1..]);
    }
  }

  lemma {:induction false} StrLessTotal(a: string, b: string)
    requires a != b
    ensures StrLess(a, b) || StrLess(b, a)
    decreases |a|
  {
    if |a| > 0 && |b| > 0 && a[0] == b[0] {
      assert a == [a[0]] + a[1..] && b == [b[0]] + b[1..];
      StrLessTotal(a[1..], b[1..]);
    }
  }

  predicate StrictlySorted(s: seq<string>) {
    forall i, j :: 0 <= i < j < |s| ==> StrLess(s[i], s[j])
  }

  /** Insert into a strictly sorted list, dropping a value already present. */
  function InsertRoute(x: string, s: seq<string>): (r: seq<string>)
    ensures |r| <= |s| + 1
  {
    if |s| == 0 then [x]
    else if x == s[0] then s
    else if StrLess(x, s[0]) then [x] + s
    else [s[0]] + InsertRoute(x, s[1..])
  }

  lemma {:induction false} InsertRouteSorted(x: string, s: seq<string>)
    requires StrictlySorted(s)
    ensures StrictlySorted(InsertRoute(x, s))
    ensures forall y :: y in InsertRoute(x, s) <==> y == x || y in s
  {
    if |s| == 0 {
    } else if x == s[0] {
    } else if StrLess(x, s[0]) {
      var r := [x] + s;
      forall i, j | 0 <= i < j < |r| ensures StrLess(r[i], r[j]) {
        if i == 0 && j > 1 { StrLessTransitive(x, s[0], s[j - 1]); }
      }
    } else {
      StrLessTotal(x, s[0]);
      var t := s[1..];
      assert StrictlySorted(t) by {
        forall i, j | 0 <= i < j < |t| ensures StrLess(t[i], t[j]) { assert StrLess(s[i + 1], s[j + 1]); }
      }
      InsertRouteSorted(x, t);
      var it := InsertRoute(x, t);
      var r := [s[0]] + it;
      assert s == [s[0]] + t;
      forall j | 0 <= j < |it| ensures StrLess(s[0], it[j]) {
        assert it[j] in it;
      }
      forall i, j | 0 <= i < j < |r| ensures StrLess(r[i], r[j]) {
        if i == 0 { assert r[j] == it[j - 1]; } else { assert r[i] == it[i - 1] && r[j] == it[j - 1]; }
      }
    }
  }

  /** Set-based dedupe followed by sort, as one insertion per element. */
  function SortUnique(xs: seq<string>): (r: seq<string>)
    ensures |r| <= |xs|
  {
    if |xs| == 0 then [] else InsertRoute(xs[|xs| - 1], SortUnique(xs[..|xs| - 1]))
  }

  lemma {:induction false} SortUniqueShape(xs: seq<string>)
    ensures StrictlySorted(SortUnique(xs))
    ensures forall y :: y in SortUnique(xs) <==> y in xs
  {
    if |xs| > 0 {
      var init := xs[..|xs| - 1];
      SortUniqueShape(init);
      InsertRouteSorted(xs[|xs| - 1], SortUnique(init));
      assert xs == init + [xs[|xs| - 1]];
    }
  }

  function SlugRoutes(slugs: seq<string>): (r: seq<string>)
    ensures |r| == |slugs|
    ensures forall i :: 0 <= i < |slugs| ==> r[i] == RouteOf(Slug, slugs[i])
  {
    if |slugs| == 0 then [] else SlugRoutes(slugs[..|slugs| - 1]) + [RouteOf(Slug, slugs[|slugs| - 1])]
  }

  /** gen-velite-routes.ts: the route list for a list of `slugAsParams`. */
  function RouteList(slugs: seq<string>): seq<string> {
    SortUnique(["/"] + SlugRoutes(slugs))
  }

  /**
   * The generated list always holds `/`, holds exactly the slug routes
   * besides, every entry starts with `/`, and it is strictly ascending, so
   * no route appears twice.
   */
  lemma RouteListShape(slugs: seq<string>)
    ensures var r := RouteList(slugs);
      && "/" in r
      && StrictlySorted(r)
      && (forall i, j :: 0 <= i < |r| && 0 <= j < |r| && i != j ==> r[i] != r[j])
      && (forall y :: y in r <==> y == "/" || exists k :: 0 <= k < |slugs| && y == RouteOf(Slug, slugs[k]))
      && (forall y :: y in r ==> |y| > 0 && y[0] == '/')
  {
    var all := ["/"] + SlugRoutes(slugs);
    SortUniqueShape(all);
    var r := RouteList(slugs);
    assert all[0] == "/";
    forall i, j | 0 <= i < |r| && 0 <= j < |r| && i != j ensures r[i] != r[j] {
      if i < j { StrLessIrreflexive(r[i]); } else { StrLessIrreflexive(r[j]); }
    }
    forall y ensures y in r <==> y == "/" || exists k :: 0 <= k < |slugs| && y == RouteOf(Slug, slugs[k]) {
      if y in all && y != "/" {
        var m :| 0 <= m < |all| && all[m] == y;
        assert y == RouteOf(Slug, slugs[m - 1]);
      }
      if exists k :: 0 <= k < |slugs| && y == RouteOf(Slug, slugs[k]) {
        var k :| 0 <= k < |slugs| && y == RouteOf(Slug, slugs[k]);
        assert all[k + 1] == y;
      }
    }
  }
}
