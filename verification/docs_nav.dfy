/**
 * The sidebar navigation (packages/web-runtime/src/gittydocs/components/docs/docs-nav.tsx
 * and apps/web/src/components/docs/docs-nav.tsx): which links are active,
 * the removal of `/llms.txt` entries, and the open/closed state of the
 * accordion groups.
 */
module DocsNav {
  import opened Wrappers
  import opened Text
  import opened Types
  import opened BasePath

  const LlmsPath := "/llms.txt"

  /** `isActive` (identical in both files): the root only on itself, anything else on every path it prefixes. */
  predicate IsActive(currentPath: string, navPath: string) {
    if navPath == "/" then currentPath == "/" else StartsWith(currentPath, navPath)
  }

  /** Every path is active for itself. */
  lemma ActiveForItself(path: string)
    ensures IsActive(path, path)
  {
  }

  /** The root link is active exactly on the root. */
  lemma RootActiveOnlyOnRoot(currentPath: string)
    ensures IsActive(currentPath, "/") <==> currentPath == "/"
  {
  }

  /** There is no segment-boundary check: `/deploy` is active on `/deployment`. */
  lemma PrefixWithoutBoundary()
    ensures IsActive("/deployment", "/deploy")
    ensures !IsActive("/deploy", "/deployment")
  {
    assert "/deployment"[..7] == "/deploy";
  }

  /** `pathname()`: the URL's path, or `/` without one, with the base stripped. */
  function CurrentPath(envBase: Option<string>, urlPath: Option<string>): (r: string)
    ensures !Truthy(urlPath) ==> r == StripBasePath(envBase, "/")
    ensures Truthy(urlPath) ==> r == StripBasePath(envBase, urlPath.value)
  {
    StripBasePath(envBase, if Truthy(urlPath) then urlPath.value else "/")
  }

  // ---------------------------------------------------------------------------
  // `removeLlmsItems`
  // ---------------------------------------------------------------------------

  predicate IsLlms(item: NavItem) {
    item.path == Some(LlmsPath)
  }

  /** `items.filter((child) => child.path !== "/llms.txt")`. */
  function DropLlms(items: seq<NavItem>): (r: seq<NavItem>)
    ensures |r| <= |items|
    ensures forall x :: x in r <==> x in items && !IsLlms(x)
  {
    if |items| == 0 then []
    else DropLlms(items[..|items| - 1]) + (if IsLlms(items[|items| - 1]) then [] else [items[|items| - 1]])
  }

  /** The `map` step: a group keeps only its non-llms children; an item without `items` is unchanged. */
  function CleanChildren(item: NavItem): (r: NavItem)
    ensures r.title == item.title && r.path == item.path && r.accordion == item.accordion
    ensures item.items.NoItems? ==> r == item
    ensures item.items.Items? ==> r.items == Items(DropLlms(item.items.list))
  {
    if item.items.NoItems? then item else item.(items := Items(DropLlms(item.items.list)))
  }

  /** The last `filter`: an item stays unless it is a group that ended up empty. */
  predicate Survives(item: NavItem) {
    item.items.NoItems? || |item.items.list| > 0
  }

  /** `removeLlmsItems`: the three steps, item by item. */
  function RemoveLlmsItems(items: seq<NavItem>): (r: seq<NavItem>)
    ensures |r| <= |items|
  {
    if |items| == 0 then []
    else
      var x := items[|items| - 1];
      var kept := if !IsLlms(x) && Survives(CleanChildren(x)) then [CleanChildren(x)] else [];
      RemoveLlmsItems(items[..|items| - 1]) + kept
  }

  /**
   * An item is in the result exactly when it is the cleaned form of an input
   * item that is not the llms link and that is a leaf or keeps a child.
   */
  lemma {:induction false} RemoveLlmsMembers(items: seq<NavItem>, y: NavItem)
    ensures y in RemoveLlmsItems(items) <==>
      exists i :: 0 <= i < |items| && !IsLlms(items[i]) && Survives(CleanChildren(items[i])) && y == CleanChildren(items[i])
  {
    if |items| > 0 {
      var init := items[..|items| - 1];
      RemoveLlmsMembers(init, y);
      var x := items[|items| - 1];
      if exists i :: 0 <= i < |items| && !IsLlms(items[i]) && Survives(CleanChildren(items[i])) && y == CleanChildren(items[i]) {
        var i :| 0 <= i < |items| && !IsLlms(items[i]) && Survives(CleanChildren(items[i])) && y == CleanChildren(items[i]);
        if i < |init| { assert init[i] == items[i]; }
      }
      if y in RemoveLlmsItems(init) {
        var i :| 0 <= i < |init| && !IsLlms(init[i]) && Survives(CleanChildren(init[i])) && y == CleanChildren(init[i]);
        assert items[i] == init[i];
      }
    }
  }

  /** After the removal no item and no direct child links to `/llms.txt`, and no group is empty. */
  lemma RemoveLlmsClean(items: seq<NavItem>)
    ensures forall y :: y in RemoveLlmsItems(items) ==>
      !IsLlms(y) && Survives(y) && (y.items.Items? ==> forall c :: c in y.items.list ==> !IsLlms(c))
  {
    forall y | y in RemoveLlmsItems(items)
      ensures !IsLlms(y) && Survives(y) && (y.items.Items? ==> forall c :: c in y.items.list ==> !IsLlms(c))
    {
      RemoveLlmsMembers(items, y);
    }
  }

  /** A leaf that is not the llms link always survives, unchanged. */
  lemma RemoveLlmsKeepsLeaves(items: seq<NavItem>, i: int)
    requires 0 <= i < |items| && items[i].items.NoItems? && !IsLlms(items[i])
    ensures items[i] in RemoveLlmsItems(items)
  {
    RemoveLlmsMembers(items, items[i]);
  }

  /** `xs` is `ys` with some elements left out, the rest in their order. */
  predicate Subsequence(xs: seq<NavItem>, ys: seq<NavItem>)
    decreases |ys|
  {
    if |xs| == 0 then true
    else if |ys| == 0 then false
    else if xs[|xs| - 1] == ys[|ys| - 1] then Subsequence(xs[..|xs| - 1], ys[..|ys| - 1])
    else Subsequence(xs, ys[..|ys| - 1])
  }

  function CleanAll(items: seq<NavItem>): (r: seq<NavItem>)
    ensures |r| == |items| && forall i :: 0 <= i < |items| ==> r[i] == CleanChildren(items[i])
  {
    if |items| == 0 then [] else CleanAll(items[..|items| - 1]) + [CleanChildren(items[|items| - 1])]
  }

  /** A subsequence stays one when the sequence grows at the end. */
  lemma {:induction false} SubsequenceExtend(xs: seq<NavItem>, ys: seq<NavItem>, y: NavItem)
    requires Subsequence(xs, ys)
    ensures Subsequence(xs, ys + [y])
    decreases |ys|, 1
  {
    var zs := ys + [y];
    assert zs[..|zs| - 1] == ys;
    if |xs| > 0 && xs[|xs| - 1] == y {
      SubsequenceDrop(xs, ys);
    }
  }

  /** Dropping the last element of a subsequence keeps it a subsequence. */
  lemma {:induction false} SubsequenceDrop(xs: seq<NavItem>, ys: seq<NavItem>)
    requires |xs| > 0 && Subsequence(xs, ys)
    ensures Subsequence(xs[..|xs| - 1], ys)
    decreases |ys|, 0
  {
    if |ys| > 0 {
      var init := ys[..|ys| - 1];
      assert init + [ys[|ys| - 1]] == ys;
      if xs[|xs| - 1] == ys[|ys| - 1] {
        SubsequenceExtend(xs[..|xs| - 1], init, ys[|ys| - 1]);
      } else {
        SubsequenceDrop(xs, init);
        SubsequenceExtend(xs[..|xs| - 1], init, ys[|ys| - 1]);
      }
    }
  }

  /** The removal keeps the relative order of what survives. */
  lemma {:induction false} RemoveLlmsKeepsOrder(items: seq<NavItem>)
    ensures Subsequence(RemoveLlmsItems(items), CleanAll(items))
  {
    if |items| > 0 {
      var init := items[..|items| - 1];
      RemoveLlmsKeepsOrder(init);
      var x := items[|items| - 1];
      var cx := CleanChildren(x);
      var c := CleanAll(items);
      assert c == CleanAll(init) + [cx];
      var r := RemoveLlmsItems(items);
      if !IsLlms(x) && Survives(cx) {
        assert r == RemoveLlmsItems(init) + [cx];
        assert r[..|r| - 1] == RemoveLlmsItems(init);
        assert c[..|c| - 1] == CleanAll(init);
      } else {
        assert r == RemoveLlmsItems(init);
        SubsequenceExtend(RemoveLlmsItems(init), CleanAll(init), cx);
      }
    }
  }

  // ---------------------------------------------------------------------------
  // Accordion state
  // ---------------------------------------------------------------------------

  /** `child.path && isActive(pathname(), child.path)`. */
  predicate ChildActive(currentPath: string, child: NavItem) {
    Truthy(child.path) && IsActive(currentPath, child.path.value)
  }

  /** `item.accordion && item.items && item.items.some(...)`. */
  predicate OpensOnMount(currentPath: string, item: NavItem) {
    item.accordion && item.items.Items? && exists c :: c in item.items.list && ChildActive(currentPath, c)
  }

  /** The `initialOpen` record `onMount` builds. */
  function InitialOpen(currentPath: string, items: seq<NavItem>): map<string, bool> {
    if |items| == 0 then map[]
    else
      var m := InitialOpen(currentPath, items[..|items| - 1]);
      var x := items[|items| - 1];
      if OpensOnMount(currentPath, x) then m[x.title := true] else m
  }

  /** On mount a label is open exactly when one of its items is an accordion with an active child. */
  lemma {:induction false} InitialOpenLabels(currentPath: string, items: seq<NavItem>, group: string)
    ensures group in InitialOpen(currentPath, items) <==>
      exists i :: 0 <= i < |items| && items[i].title == group && OpensOnMount(currentPath, items[i])
    ensures group in InitialOpen(currentPath, items) ==> InitialOpen(currentPath, items)[group]
  {
    if |items| > 0 {
      var init := items[..|items| - 1];
      InitialOpenLabels(currentPath, init, group);
      if exists i :: 0 <= i < |items| && items[i].title == group && OpensOnMount(currentPath, items[i]) {
        var i :| 0 <= i < |items| && items[i].title == group && OpensOnMount(currentPath, items[i]);
        if i < |init| { assert init[i] == items[i]; }
      }
      if group in InitialOpen(currentPath, init) {
        var i :| 0 <= i < |init| && init[i].title == group && OpensOnMount(currentPath, init[i]);
        assert items[i] == init[i];
      }
    }
  }

  /** Whether some child of a group is active, as the `some` call scans the children. */
  method SomeChildActive(currentPath: string, children: seq<NavItem>) returns (found: bool)
    ensures found <==> exists c :: c in children && ChildActive(currentPath, c)
  {
    found := false;
    var j := 0;
    while j < |children| && !found
      invariant 0 <= j <= |children|
      invariant found <==> exists k :: 0 <= k < j && ChildActive(currentPath, children[k])
    {
      found := ChildActive(currentPath, children[j]);
      j := j + 1;
    }
    if !found {
      forall c | c in children ensures !ChildActive(currentPath, c) {
        var k :| 0 <= k < |children| && children[k] == c;
      }
    }
  }

  /** The accordion groups' open flags (`accordionState.openAccordions`). */
  class Accordions {
    var openAccordions: map<string, bool>

    constructor()
      ensures openAccordions == map[]
    {
      openAccordions := map[];
    }

    /** `accordionState.openAccordions[label] || false`. */
    function IsOpen(group: string): bool
      reads this
    {
      group in openAccordions && openAccordions[group]
    }

    /** `onMount`: the open flags become those of the groups holding the active page. */
    method Mount(currentPath: string, items: seq<NavItem>)
      modifies this
      ensures openAccordions == InitialOpen(currentPath, items)
    {
      var initialOpen: map<string, bool> := map[];
      for i := 0 to |items|
        invariant initialOpen == InitialOpen(currentPath, items[..i])
      {
        assert items[..i + 1][..i] == items[..i];
        var item := items[i];
        if item.accordion && item.items.Items? {
          var hasActiveChild := SomeChildActive(currentPath, item.items.list);
          if hasActiveChild {
            initialOpen := initialOpen[item.title := true];
          }
        }
      }
      assert items[..|items|] == items;
      openAccordions := initialOpen;
    }

    /** `toggleAccordion`: flips the given label's flag (a missing flag counts as closed) and no other. */
    method Toggle(group: string)
      modifies this
      ensures IsOpen(group) == !old(IsOpen(group))
      ensures forall l :: l != group ==> IsOpen(l) == old(IsOpen(l))
      ensures openAccordions.Keys == old(openAccordions.Keys) + {group}
    {
      openAccordions := openAccordions[group := !IsOpen(group)];
    }
  }
}
