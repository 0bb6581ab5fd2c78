/**
 * Navigation built from source paths (nav.ts, and the copies in
 * docs.context.tsx and packages/web-runtime/scripts/prepare-docs.ts): a file
 * tree with one node per distinct path segment, siblings ordered
 * `index.*` first, then `NN-` names by number, then by name, and a nav item
 * per file and per directory that has nav children.
 *
 * The copies differ in two places, both parameters here: the route a file
 * node gets (`RouteStyle`, applied after the extension is dropped) and where
 * its title comes from (`Titles`).
 */
module NavTree {
  import opened Wrappers
  import opened Text
  import opened Types
  import opened Routes

  datatype NodeKind = File | Directory

  /**
   * A tree node. A file node starts with no children; the source only gives
   * it some when a later path runs through it, and the nav ignores them.
   */
  datatype FileNode = FileNode(name: string, path: string, kind: NodeKind, children: seq<FileNode>)

  // ---------------------------------------------------------------------
  // The file tree
  // ---------------------------------------------------------------------

  function NonEmpty(parts: seq<string>): (r: seq<string>)
    ensures |r| <= |parts|
    ensures forall i :: 0 <= i < |r| ==> r[i] != "" && r[i] in parts
  {
    if |parts| == 0 then []
    else if parts[0] == "" then NonEmpty(parts[1..])
    else [parts[0]] + NonEmpty(parts[1..])
  }

  /** `filePath.split("/").filter(Boolean)`. */
  function Segments(path: string): (r: seq<string>)
    ensures forall i :: 0 <= i < |r| ==> r[i] != "" && '/' !in r[i]
  {
    NonEmpty(Split(path, '/'))
  }

  /** `current.path ? `${current.path}/${part}` : part`. */
  function ChildPath(parent: string, name: string): string {
    if parent == "" then name else parent + "/" + name
  }

  /** `children.find((child) => child.name === part)`, as an index. */
  function FindChild(nodes: seq<FileNode>, name: string): (k: int)
    ensures -1 <= k < |nodes|
    ensures k == -1 <==> forall i :: 0 <= i < |nodes| ==> nodes[i].name != name
    ensures k != -1 ==> nodes[k].name == name && forall i :: 0 <= i < k ==> nodes[i].name != name
  {
    if |nodes| == 0 then -1
    else if nodes[0].name == name then 0
    else var k := FindChild(nodes[1..], name); if k == -1 then -1 else k + 1
  }

  /**
   * One walk of the inner loop: follow `parts` down from the node whose
   * children are `nodes` and whose path is `parent`, creating each missing
   * node; the last part is created as a file, the others as directories.
   */
  function InsertParts(nodes: seq<FileNode>, parent: string, parts: seq<string>): (r: seq<FileNode>)
    decreases |parts|
  {
    if |parts| == 0 then nodes
    else
      var k := FindChild(nodes, parts[0]);
      if k == -1 then
        var path := ChildPath(parent, parts[0]);
        var kind := if |parts| == 1 then File else Directory;
        nodes + [FileNode(parts[0], path, kind, InsertParts([], path, parts[1..]))]
      else
        nodes[k := nodes[k].(children := InsertParts(nodes[k].children, nodes[k].path, parts[1..]))]
  }

  function InsertPath(tree: seq<FileNode>, path: string): seq<FileNode> {
    InsertParts(tree, "", Segments(path))
  }

  /** The tree after the outer loop has seen `paths`. */
  function BuildTree(paths: seq<string>): seq<FileNode> {
    if |paths| == 0 then [] else InsertPath(BuildTree(paths[..|paths| - 1]), paths[|paths| - 1])
  }

  /**
   * Sibling names are distinct and non-empty, and every node's path is its
   * parent's path, a `/` and its name (just its name at the top).
   */
  predicate WellFormed(nodes: seq<FileNode>, parent: string)
    decreases nodes
  {
    (forall i, j :: 0 <= i < j < |nodes| ==> nodes[i].name != nodes[j].name)
    && (forall i :: 0 <= i < |nodes| ==>
          nodes[i].name != "" && nodes[i].path == ChildPath(parent, nodes[i].name)
          && WellFormed(nodes[i].children, nodes[i].path))
  }

  lemma {:induction false} InsertKeepsWellFormed(nodes: seq<FileNode>, parent: string, parts: seq<string>)
    requires WellFormed(nodes, parent)
    requires forall i :: 0 <= i < |parts| ==> parts[i] != ""
    ensures WellFormed(InsertParts(nodes, parent, parts), parent)
    decreases |parts|
  {
    if |parts| > 0 {
      var k := FindChild(nodes, parts[0]);
      if k == -1 {
        var path := ChildPath(parent, parts[0]);
        InsertKeepsWellFormed([], path, parts[1..]);
      } else {
        InsertKeepsWellFormed(nodes[k].children, nodes[k].path, parts[1..]);
      }
    }
  }

  lemma {:induction false} BuildTreeWellFormed(paths: seq<string>)
    ensures WellFormed(BuildTree(paths), "")
  {
    if |paths| > 0 {
      BuildTreeWellFormed(paths[..|paths| - 1]);
      InsertKeepsWellFormed(BuildTree(paths[..|paths| - 1]), "", Segments(paths[|paths| - 1]));
    }
  }

  /** The node reached by following `parts` from `nodes`, if every step exists. */
  function Lookup(nodes: seq<FileNode>, parts: seq<string>): Option<FileNode>
    decreases |parts|
  {
    if |parts| == 0 then None
    else
      var k := FindChild(nodes, parts[0]);
      if k == -1 then None
      else if |parts| == 1 then Some(nodes[k])
      else Lookup(nodes[k].children, parts[1..])
  }

  /**
   * After inserting `parts` the path can be followed; when it could not be
   * followed before, the node at its end is a new file with no children.
   */
  lemma {:induction false} InsertReaches(nodes: seq<FileNode>, parent: string, parts: seq<string>)
    requires |parts| > 0
    ensures Lookup(InsertParts(nodes, parent, parts), parts).Some?
    ensures Lookup(nodes, parts).None? ==>
      var n := Lookup(InsertParts(nodes, parent, parts), parts).value;
      n.kind == File && n.children == [] && n.name == parts[|parts| - 1]
    decreases |parts|
  {
    var r := InsertParts(nodes, parent, parts);
    var k := FindChild(nodes, parts[0]);
    if k == -1 {
      var path := ChildPath(parent, parts[0]);
      var kind := if |parts| == 1 then File else Directory;
      var child := FileNode(parts[0], path, kind, InsertParts([], path, parts[1..]));
      assert r == nodes + [child];
      assert r[|nodes|].name == parts[0];
      assert forall i :: 0 <= i < |nodes| ==> r[i].name != parts[0];
      assert FindChild(r, parts[0]) == |nodes|;
      if |parts| > 1 {
        InsertReaches([], path, parts[1..]);
        assert Lookup([], parts[1..]).None?;
        assert parts[1..][|parts[1..]| - 1] == parts[|parts| - 1];
      }
    } else {
      assert r[k].name == parts[0];
      assert forall i :: 0 <= i < k ==> r[i].name != parts[0];
      assert FindChild(r, parts[0]) == k;
      if |parts| > 1 {
        InsertReaches(nodes[k].children, nodes[k].path, parts[1..]);
        assert parts[1..][|parts[1..]| - 1] == parts[|parts| - 1];
      }
    }
  }

  /** Inserting touches only the sibling named like the first segment, or appends one. */
  lemma InsertKeepsOthers(nodes: seq<FileNode>, parent: string, parts: seq<string>)
    requires |parts| > 0
    ensures var r := InsertParts(nodes, parent, parts);
      |nodes| <= |r| <= |nodes| + 1
      && forall i :: 0 <= i < |nodes| ==> r[i].name == nodes[i].name && (nodes[i].name != parts[0] ==> r[i] == nodes[i])
  {
  }

  lemma {:induction false} AllSlashPieces(s: string)
    requires forall i :: 0 <= i < |s| ==> s[i] == '/'
    ensures forall i :: 0 <= i < |Split(s, '/')| ==> Split(s, '/')[i] == ""
    decreases |s|
  {
    if |s| > 0 {
      assert IndexOfChar(s, '/') == 0;
      AllSlashPieces(s[1..]);
      assert Split(s, '/') == [""] + Split(s[1..], '/');
    }
  }

  lemma {:induction false} NonEmptyOfEmpties(parts: seq<string>)
    requires forall i :: 0 <= i < |parts| ==> parts[i] == ""
    ensures NonEmpty(parts) == []
  {
    if |parts| > 0 { NonEmptyOfEmpties(parts[1..]); }
  }

  /** A path that is empty or only slashes adds no node. */
  lemma SlashOnlyPathAddsNothing(tree: seq<FileNode>, path: string)
    requires forall i :: 0 <= i < |path| ==> path[i] == '/'
    ensures InsertPath(tree, path) == tree
  {
    AllSlashPieces(path);
    NonEmptyOfEmpties(Split(path, '/'));
  }

  /** buildFileTree: the outer loop over the source paths. */
  method BuildFileTree(paths: seq<string>) returns (tree: seq<FileNode>)
    ensures tree == BuildTree(paths)
    ensures WellFormed(tree, "")
  {
    tree := [];
    var i := 0;
    while i < |paths|
      invariant 0 <= i <= |paths|
      invariant tree == BuildTree(paths[..i])
    {
      assert paths[..i + 1][..i] == paths[..i];
      tree := InsertPath(tree, paths[i]);
      i := i + 1;
    }
    assert paths[..i] == paths;
    BuildTreeWellFormed(paths);
  }

  // ---------------------------------------------------------------------
  // Sibling order
  // ---------------------------------------------------------------------

  function DigitRun(s: string, p: nat): (n: nat)
    decreases |s| - p
    ensures p + n <= |s| || (p > |s| && n == 0)
    ensures forall k :: p <= k < p + n ==> IsDigit(s[k])
    ensures p + n < |s| ==> !IsDigit(s[p + n])
  {
    if p < |s| && IsDigit(s[p]) then 1 + DigitRun(s, p + 1) else 0
  }

  /** `parseInt(digits, 10)` for a run of ASCII digits. */
  function DigitsValue(s: string): nat {
    if |s| == 0 then 0
    else
      var d := s[|s| - 1] as int - '0' as int;
      DigitsValue(s[..|s| - 1]) * 10 + (if 0 <= d then d else 0)
  }

  /** The match of `^(\d+)-`: the digit run and the position after the hyphen. */
  function NumberPrefixEnd(name: string): (e: nat)
    ensures e == 0 || (2 <= e <= |name| && name[e - 1] == '-')
  {
    var n := DigitRun(name, 0);
    if n > 0 && n < |name| && name[n] == '-' then n + 1 else 0
  }

  predicate IsIndexName(name: string) {
    StartsWith(name, "index.")
  }

  /** 0 for `index.*`, 1 for `NN-` names, 2 for the rest. */
  function Rank(name: string): nat {
    if IsIndexName(name) then 0 else if NumberPrefixEnd(name) > 0 then 1 else 2
  }

  function NumberOf(name: string): nat {
    var e := NumberPrefixEnd(name);
    if e == 0 then 0 else DigitsValue(name[..e - 1])
  }

  /**
   * The comparator as an order: `a` may come before `b`. `localeCompare`
   * is taken as plain character order.
   */
  predicate NodeLeq(a: FileNode, b: FileNode) {
    var ra := Rank(a.name);
    var rb := Rank(b.name);
    if ra != rb then ra < rb
    else if ra == 1 then NumberOf(a.name) <= NumberOf(b.name)
    else !StrLess(b.name, a.name)
  }

  lemma NodeLeqTotal(a: FileNode, b: FileNode)
    ensures NodeLeq(a, b) || NodeLeq(b, a)
  {
    var ra, rb := Rank(a.name), Rank(b.name);
    if ra == rb && ra != 1 {
      if a.name != b.name {
        StrLessTotal(a.name, b.name);
        assert !StrLess(b.name, a.name) || !StrLess(a.name, b.name) by {
          if StrLess(b.name, a.name) && StrLess(a.name, b.name) {
            StrLessTransitive(a.name, b.name, a.name);
            StrLessIrreflexive(a.name);
          }
        }
      } else {
        StrLessIrreflexive(a.name);
      }
    }
  }

  lemma NodeLeqTransitive(a: FileNode, b: FileNode, c: FileNode)
    requires NodeLeq(a, b) && NodeLeq(b, c)
    ensures NodeLeq(a, c)
  {
    var r := Rank(a.name);
    if r == Rank(b.name) == Rank(c.name) && r != 1 {
      if a.name != b.name && b.name != c.name {
        StrLessTotal(a.name, b.name);
        StrLessTotal(b.name, c.name);
        StrLessTransitive(a.name, b.name, c.name);
        if StrLess(c.name, a.name) {
          StrLessTransitive(c.name, a.name, b.name);
          StrLessIrreflexive(c.name);
        }
      }
    }
  }

  predicate SortedNodes(s: seq<FileNode>) {
    forall i, j :: 0 <= i < j < |s| ==> NodeLeq(s[i], s[j])
  }

  /** Insert `x` after every element that may precede it (stable). */
  function InsertNode(x: FileNode, s: seq<FileNode>): (r: seq<FileNode>)
    ensures |r| == |s| + 1
  {
    if |s| == 0 then [x]
    else if !NodeLeq(s[0], x) then [x] + s
    else [s[0]] + InsertNode(x, s[1..])
  }

  /** The sibling sort (`[...tree].sort(compare)`). */
  function SortNodes(s: seq<FileNode>): (r: seq<FileNode>)
    ensures |r| == |s|
  {
    if |s| == 0 then [] else InsertNode(s[|s| - 1], SortNodes(s[..|s| - 1]))
  }

  lemma {:induction false} InsertNodeCount(x: FileNode, s: seq<FileNode>)
    ensures multiset(InsertNode(x, s)) == multiset(s) + multiset{x}
  {
    if |s| > 0 && NodeLeq(s[0], x) {
      InsertNodeCount(x, s[1..]);
      assert s == [s[0]] + s[1..];
    }
  }

  lemma SortedTail(s: seq<FileNode>)
    requires SortedNodes(s) && |s| > 0
    ensures SortedNodes(s[1..])
  {
    var t := s[1..];
    forall i, j | 0 <= i < j < |t| ensures NodeLeq(t[i], t[j]) { assert NodeLeq(s[i + 1], s[j + 1]); }
  }

  lemma ConsSorted(h: FileNode, t: seq<FileNode>)
    requires SortedNodes(t)
    requires forall j :: 0 <= j < |t| ==> NodeLeq(h, t[j])
    ensures SortedNodes([h] + t)
  {
    var r := [h] + t;
    forall i, j | 0 <= i < j < |r| ensures NodeLeq(r[i], r[j]) {
      if i == 0 { assert r[j] == t[j - 1]; } else { assert r[i] == t[i - 1] && r[j] == t[j - 1]; }
    }
  }

  lemma HeadBelowInsert(x: FileNode, s: seq<FileNode>)
    requires SortedNodes(s) && |s| > 0 && NodeLeq(s[0], x)
    ensures forall j :: 0 <= j < |InsertNode(x, s[1..])| ==> NodeLeq(s[0], InsertNode(x, s[1..])[j])
  {
    var t := s[1..];
    var it := InsertNode(x, t);
    InsertNodeCount(x, t);
    forall j | 0 <= j < |it| ensures NodeLeq(s[0], it[j]) {
      assert it[j] in multiset(it);
      assert it[j] in multiset(t) + multiset{x};
      if it[j] != x {
        assert it[j] in t;
        var m :| 0 <= m < |t| && t[m] == it[j];
        assert NodeLeq(s[0], s[m + 1]);
      }
    }
  }

  lemma {:induction false} InsertNodeSorted(x: FileNode, s: seq<FileNode>)
    requires SortedNodes(s)
    ensures SortedNodes(InsertNode(x, s))
  {
    if |s| == 0 {
    } else if !NodeLeq(s[0], x) {
      NodeLeqTotal(s[0], x);
      forall j | 0 <= j < |s| ensures NodeLeq(x, s[j]) {
        if j > 0 { NodeLeqTransitive(x, s[0], s[j]); }
      }
      ConsSorted(x, s);
    } else {
      SortedTail(s);
      InsertNodeSorted(x, s[1..]);
      HeadBelowInsert(x, s);
      ConsSorted(s[0], InsertNode(x, s[1..]));
    }
  }

  /** Siblings come out in comparator order, and none is lost or added. */
  lemma {:induction false} SortNodesShape(s: seq<FileNode>)
    ensures SortedNodes(SortNodes(s))
    ensures multiset(SortNodes(s)) == multiset(s)
  {
    if |s| > 0 {
      var init := s[..|s| - 1];
      SortNodesShape(init);
      InsertNodeSorted(s[|s| - 1], SortNodes(init));
      InsertNodeCount(s[|s| - 1], SortNodes(init));
      assert s == init + [s[|s| - 1]];
    }
  }

  /** In a sorted sibling list, nothing but an `index.*` name precedes an `index.*` name. */
  lemma IndexFirst(s: seq<FileNode>, i: int, j: int)
    requires SortedNodes(s) && 0 <= i < j < |s|
    requires IsIndexName(s[j].name)
    ensures IsIndexName(s[i].name)
  {
    assert NodeLeq(s[i], s[j]);
  }

  /** Numbered names come before unnumbered non-index names, in ascending number. */
  lemma NumberedOrder(s: seq<FileNode>, i: int, j: int)
    requires SortedNodes(s) && 0 <= i < j < |s|
    requires Rank(s[i].name) == 1 && Rank(s[j].name) == 1
    ensures NumberOf(s[i].name) <= NumberOf(s[j].name)
  {
    assert NodeLeq(s[i], s[j]);
  }

  // ---------------------------------------------------------------------
  // Labels
  // ---------------------------------------------------------------------

  /** `name.replace(/^\d+-/, "")`. */
  function DropNumberPrefix(name: string): (r: string)
    ensures |r| <= |name|
  {
    name[NumberPrefixEnd(name)..]
  }

  lemma {:induction false} DigitRunOf(d: string, rest: string, p: nat)
    requires p <= |d| && forall i :: 0 <= i < |d| ==> IsDigit(d[i])
    ensures DigitRun(d + "-" + rest, p) == |d| - p
    decreases |d| - p
  {
    var s := d + "-" + rest;
    if p < |d| {
      assert s[p] == d[p];
      DigitRunOf(d, rest, p + 1);
    } else {
      assert s[p] == '-';
    }
  }

  /** Exactly one leading `digits-` goes. */
  lemma NumberPrefixDropped(d: string, rest: string)
    requires |d| > 0 && forall i :: 0 <= i < |d| ==> IsDigit(d[i])
    ensures DropNumberPrefix(d + "-" + rest) == rest
  {
    DigitRunOf(d, rest, 0);
    var s := d + "-" + rest;
    assert s[|d|] == '-';
    assert s[|d| + 1..] == rest;
  }

  /** `word.charAt(0).toUpperCase() + word.slice(1)`. */
  function Capitalize(w: string): (r: string)
    ensures |r| == |w|
    ensures |w| > 0 ==> r[0] == UpperChar(w[0]) && r[1..] == w[1..]
  {
    if |w| == 0 then w else [UpperChar(w[0])] + w[1..]
  }

  function CapitalizeAll(ws: seq<string>): (r: seq<string>)
    ensures |r| == |ws|
    ensures forall i :: 0 <= i < |ws| ==> r[i] == Capitalize(ws[i])
  {
    seq(|ws|, i requires 0 <= i < |ws| => Capitalize(ws[i]))
  }

  /** formatLabel: drop a `NN-` prefix, split on `-`, capitalise, join with spaces. */
  function FormatLabel(name: string): string {
    Join(CapitalizeAll(Split(DropNumberPrefix(name), '-')), " ")
  }

  /** The words joined by formatLabel: one per hyphen-separated piece, capitalised. */
  function LabelWords(name: string): (ws: seq<string>)
    ensures var pieces := Split(DropNumberPrefix(name), '-');
      |ws| == |pieces|
      && forall i :: 0 <= i < |ws| ==>
           |ws[i]| == |pieces[i]| && '-' !in ws[i]
           && (|ws[i]| > 0 ==> !IsLower(ws[i][0]) && ws[i][1..] == pieces[i][1..])
  {
    var pieces := Split(DropNumberPrefix(name), '-');
    var ws := CapitalizeAll(pieces);
    assert forall i :: 0 <= i < |ws| ==> '-' !in ws[i] by {
      forall i | 0 <= i < |ws| ensures '-' !in ws[i] {
        if |pieces[i]| > 0 {
          assert ws[i] == [UpperChar(pieces[i][0])] + pieces[i][1..];
          assert pieces[i][0] in pieces[i];
        }
      }
    }
    ws
  }

  lemma {:induction false} JoinAvoids(parts: seq<string>, sep: string, c: char)
    requires c !in sep && forall i :: 0 <= i < |parts| ==> c !in parts[i]
    ensures c !in Join(parts, sep)
  {
    if |parts| > 1 { JoinAvoids(parts[1..], sep, c); }
  }

  /** formatLabel's output holds no hyphen, and it joins the capitalised words with spaces. */
  lemma FormatLabelWords(name: string)
    ensures FormatLabel(name) == Join(LabelWords(name), " ")
    ensures '-' !in FormatLabel(name)
  {
    var ws := LabelWords(name);
    JoinAvoids(ws, " ", '-');
  }

  /** defaultLabel: `Overview` for `index.*`, otherwise the formatted name without extension. */
  function DefaultLabel(name: string): (r: string)
    ensures IsIndexName(name) ==> r == "Overview"
    ensures !IsIndexName(name) ==> r == FormatLabel(StripMdExtension(name))
  {
    if IsIndexName(name) then "Overview" else FormatLabel(StripMdExtension(name))
  }

  // ---------------------------------------------------------------------
  // Nav items
  // ---------------------------------------------------------------------

  /**
   * Where a file item's title comes from: a route-keyed record or map
   * (nav.ts, prepare-docs.ts) or the first page with that route
   * (docs.context.tsx). The empty string stands for "none".
   */
  datatype Titles = ByRoute(titles: map<string, string>) | ByPages(pages: seq<DocsPage>)

  function FirstPageTitle(pages: seq<DocsPage>, route: string): (t: string)
    ensures (forall i :: 0 <= i < |pages| ==> pages[i].routePath != route) ==> t == ""
    ensures forall i ::
      (0 <= i < |pages| && pages[i].routePath == route && forall j :: 0 <= j < i ==> pages[j].routePath != route)
      ==> t == pages[i].title
  {
    if |pages| == 0 then ""
    else if pages[0].routePath == route then pages[0].title
    else FirstPageTitle(pages[1..], route)
  }

  function TitleFor(t: Titles, route: string): string {
    match t
    case ByRoute(m) => if route in m then m[route] else ""
    case ByPages(pages) => FirstPageTitle(pages, route)
  }

  /** The route of a file node: its path without extension, through the copy's `toRoutePath`. */
  function FileRoute(style: RouteStyle, path: string): (r: string)
    ensures |r| > 0 && r[0] == '/'
  {
    RouteOf(style, StripMdExtension(path))
  }

  function FileItem(n: FileNode, style: RouteStyle, titles: Titles): NavItem {
    var route := FileRoute(style, n.path);
    var title := TitleFor(titles, route);
    NavItem(if title != "" then title else DefaultLabel(n.name), Some(route), NoItems, false)
  }

  /** buildNavFromTree: sort the siblings, then one item per file and per non-empty directory. */
  function NavFromTree(tree: seq<FileNode>, style: RouteStyle, titles: Titles): (r: seq<NavItem>)
    decreases tree, 1
  {
    var sorted := SortNodes(tree);
    SortNodesShape(tree);
    assert forall n :: n in sorted ==> n in tree by {
      forall n | n in sorted ensures n in tree { assert n in multiset(sorted); }
    }
    NavOfSorted(sorted, tree, style, titles)
  }

  function NavOfSorted(sorted: seq<FileNode>, tree: seq<FileNode>, style: RouteStyle, titles: Titles): (r: seq<NavItem>)
    requires forall n :: n in sorted ==> n in tree
    decreases tree, 0, |sorted|
  {
    if |sorted| == 0 then []
    else
      assert sorted[0] in tree;
      NodeNav(sorted[0], style, titles) + NavOfSorted(sorted[1..], tree, style, titles)
  }

  /** The items one sorted node contributes: its link, its group, or nothing. */
  function NodeNav(n: FileNode, style: RouteStyle, titles: Titles): (r: seq<NavItem>)
    decreases n
  {
    if n.kind == Directory then
      var children := NavFromTree(n.children, style, titles);
      if |children| > 0 then [NavItem(FormatLabel(n.name), None, Items(children), false)] else []
    else [FileItem(n, style, titles)]
  }

  /**
   * Nav items are links or groups, never both; a link's path starts with
   * `/`; a group is never empty, and its items have the same shape.
   */
  predicate NavShaped(items: seq<NavItem>)
    decreases items
  {
    forall i :: 0 <= i < |items| ==> ItemShaped(items[i])
  }

  predicate ItemShaped(it: NavItem)
    decreases it
  {
    match it.items
    case NoItems => it.path.Some? && |it.path.value| > 0 && it.path.value[0] == '/'
    case Items(children) => it.path.None? && |children| > 0 && NavShaped(children)
  }

  lemma NavShapedConcat(a: seq<NavItem>, b: seq<NavItem>)
    requires NavShaped(a) && NavShaped(b)
    ensures NavShaped(a + b)
  {
    forall i | 0 <= i < |a + b| ensures ItemShaped((a + b)[i]) {
      if i < |a| { assert (a + b)[i] == a[i]; } else { assert (a + b)[i] == b[i - |a|]; }
    }
  }

  lemma {:induction false} NavFromTreeShaped(tree: seq<FileNode>, style: RouteStyle, titles: Titles)
    ensures NavShaped(NavFromTree(tree, style, titles))
    ensures |NavFromTree(tree, style, titles)| <= |tree|
    decreases tree, 1
  {
    var sorted := SortNodes(tree);
    SortNodesShape(tree);
    assert forall n :: n in sorted ==> n in tree by {
      forall n | n in sorted ensures n in tree { assert n in multiset(sorted); }
    }
    NavOfSortedShaped(sorted, tree, style, titles);
  }

  lemma {:induction false} NavOfSortedShaped(sorted: seq<FileNode>, tree: seq<FileNode>, style: RouteStyle, titles: Titles)
    requires forall n :: n in sorted ==> n in tree
    ensures NavShaped(NavOfSorted(sorted, tree, style, titles))
    ensures |NavOfSorted(sorted, tree, style, titles)| <= |sorted|
    decreases tree, 0, |sorted|
  {
    if |sorted| > 0 {
      var n := sorted[0];
      assert n in tree;
      NodeNavShaped(n, style, titles);
      NavOfSortedShaped(sorted[1..], tree, style, titles);
      NavShapedConcat(NodeNav(n, style, titles), NavOfSorted(sorted[1..], tree, style, titles));
    }
  }

  lemma {:induction false} NodeNavShaped(n: FileNode, style: RouteStyle, titles: Titles)
    ensures NavShaped(NodeNav(n, style, titles)) && |NodeNav(n, style, titles)| <= 1
    decreases n
  {
    if n.kind == Directory {
      NavFromTreeShaped(n.children, style, titles);
      var children := NavFromTree(n.children, style, titles);
      if |children| > 0 {
        assert ItemShaped(NavItem(FormatLabel(n.name), None, Items(children), false));
      }
    } else {
      var it := FileItem(n, style, titles);
      assert it.path.Some? && it.path.value == FileRoute(style, n.path);
      assert ItemShaped(it);
    }
  }

  /** buildNavFromPaths / buildNavFromPages / buildNavForLlms: a configured non-empty nav wins. */
  function NavFromPaths(paths: seq<string>, configNav: Option<seq<NavItem>>, style: RouteStyle, titles: Titles): (r: seq<NavItem>)
    ensures configNav.Some? && |configNav.value| > 0 ==> r == configNav.value
  {
    if configNav.Some? && |configNav.value| > 0 then configNav.value
    else NavFromTree(BuildTree(paths), style, titles)
  }

  /** Without a configured nav, the built nav is well shaped and no longer than the top level. */
  lemma NavFromPathsShaped(paths: seq<string>, style: RouteStyle, titles: Titles)
    ensures NavShaped(NavFromPaths(paths, None, style, titles))
    ensures |NavFromPaths(paths, None, style, titles)| <= |BuildTree(paths)|
  {
    NavFromTreeShaped(BuildTree(paths), style, titles);
  }

  /** An empty directory (or one holding only empty directories) contributes no item. */
  lemma EmptyDirectoryDropped(n: FileNode, style: RouteStyle, titles: Titles)
    requires n.kind == Directory && n.children == []
    ensures NavFromTree([n], style, titles) == []
  {
    assert SortNodes([n]) == [n];
    assert NavFromTree([], style, titles) == [];
    assert NodeNav(n, style, titles) == [];
    assert NavOfSorted([n], [n], style, titles) == [] + NavOfSorted([], [n], style, titles);
  }
}
