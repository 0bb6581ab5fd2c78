/**
 * The table of contents' active-heading tracker
 * (packages/web-runtime/src/gittydocs/components/docs/table-of-contents.tsx).
 * The intersection observer's callbacks arrive as batches of
 * (heading id, intersecting) entries; whether a clicked heading's element
 * exists and whether a pointer-down landed outside the mobile panel are
 * parameters. Scrolling is not modelled; the URL fragment a click pushes is
 * recorded in `hash`.
 */
module Toc {
  import opened Wrappers
  import opened Types

  /** One intersection-observer entry: the observed element's id and whether it intersects. */
  datatype Entry = Entry(id: string, isIntersecting: bool)

  datatype Variant = Desktop | Mobile

  /** The visible set after a batch of entries, applied in order. */
  function ApplyEntries(visible: set<string>, entries: seq<Entry>): set<string> {
    if |entries| == 0 then visible
    else
      var v := ApplyEntries(visible, entries[..|entries| - 1]);
      var e := entries[|entries| - 1];
      if e.isIntersecting then v + {e.id} else v - {e.id}
  }

  /** An id without entries in the batch keeps its state. */
  lemma {:induction false} ApplyEntriesUntouched(visible: set<string>, entries: seq<Entry>, id: string)
    requires forall k :: 0 <= k < |entries| ==> entries[k].id != id
    ensures id in ApplyEntries(visible, entries) <==> id in visible
  {
    if |entries| > 0 {
      var init := entries[..|entries| - 1];
      assert forall k :: 0 <= k < |init| ==> init[k].id != id by {
        forall k | 0 <= k < |init| ensures init[k].id != id { assert init[k] == entries[k]; }
      }
      ApplyEntriesUntouched(visible, init, id);
    }
  }

  /**
   * The entry for an id that comes last in the batch decides: the id is
   * visible afterwards exactly when that entry intersects.
   */
  lemma {:induction false} ApplyEntriesLastWins(visible: set<string>, entries: seq<Entry>, id: string, k: nat)
    requires k < |entries| && entries[k].id == id
    requires forall m :: k < m < |entries| ==> entries[m].id != id
    ensures id in ApplyEntries(visible, entries) <==> entries[k].isIntersecting
  {
    var init := entries[..|entries| - 1];
    if k < |init| {
      assert init[k] == entries[k];
      assert forall m :: k < m < |init| ==> init[m].id != id by {
        forall m | k < m < |init| ensures init[m].id != id { assert init[m] == entries[m]; }
      }
      ApplyEntriesLastWins(visible, init, id, k);
    }
  }

  /** `headings.find(h => visibleHeadings.has(h.slug))`. */
  function FirstVisible(headings: seq<Heading>, visible: set<string>): Option<Heading> {
    if |headings| == 0 then None
    else if headings[0].slug in visible then Some(headings[0])
    else FirstVisible(headings[1..], visible)
  }

  /** The heading found is the first visible one in document order; none is found when none is visible. */
  lemma {:induction false} FirstVisibleIsFirst(headings: seq<Heading>, visible: set<string>)
    ensures var r := FirstVisible(headings, visible);
      (r.Some? ==> exists i :: (0 <= i < |headings| && headings[i] == r.value && r.value.slug in visible
        && forall j :: 0 <= j < i ==> headings[j].slug !in visible))
      && (r.None? ==> forall i :: 0 <= i < |headings| ==> headings[i].slug !in visible)
  {
    if |headings| > 0 && headings[0].slug !in visible {
      var tail := headings[1..];
      FirstVisibleIsFirst(tail, visible);
      var r := FirstVisible(tail, visible);
      if r.Some? {
        var i :| 0 <= i < |tail| && tail[i] == r.value && r.value.slug in visible
          && forall j :: 0 <= j < i ==> tail[j].slug !in visible;
        assert headings[i + 1] == r.value;
        forall j | 0 <= j < i + 1 ensures headings[j].slug !in visible {
          if j > 0 { assert headings[j] == tail[j - 1]; }
        }
      } else {
        forall i | 0 <= i < |headings| ensures headings[i].slug !in visible {
          if i > 0 { assert headings[i] == tail[i - 1]; }
        }
      }
    }
  }

  /** `props.headings.find(h => h.slug === slug) ?? props.headings[0] ?? null`. */
  function ActiveHeadingOf(headings: seq<Heading>, activeSlug: Option<string>): Option<Heading> {
    var found := if activeSlug.Some? then FirstVisible(headings, {activeSlug.value}) else None;
    if found.Some? then found
    else if |headings| > 0 then Some(headings[0])
    else None
  }

  /**
   * The active heading is the first heading with the active slug; without
   * one it is the first heading; only without headings is there none.
   */
  lemma ActiveHeadingRule(headings: seq<Heading>, activeSlug: Option<string>)
    ensures var r := ActiveHeadingOf(headings, activeSlug);
      (r.None? <==> |headings| == 0)
      && (activeSlug.Some? && (exists i :: 0 <= i < |headings| && headings[i].slug == activeSlug.value) ==>
        r.Some? && r.value.slug == activeSlug.value
        && exists i :: (0 <= i < |headings| && headings[i] == r.value
          && forall j :: 0 <= j < i ==> headings[j].slug != activeSlug.value))
      && ((activeSlug.None? || forall i :: 0 <= i < |headings| ==> headings[i].slug != activeSlug.value) ==>
        r == (if |headings| == 0 then None else Some(headings[0])))
  {
    if activeSlug.Some? {
      FirstVisibleIsFirst(headings, {activeSlug.value});
    }
  }

  class Tracker {
    const headings: seq<Heading>
    const variant: Variant
    var visible: set<string>
    var lastActiveSlug: Option<string>
    var activeSlug: Option<string>
    var mobileOpen: bool
    var hash: Option<string>

    /** The effect's start: nothing is visible or active yet and the mobile panel is closed. */
    constructor(headings: seq<Heading>, variant: Variant)
      ensures this.headings == headings && this.variant == variant
      ensures visible == {} && lastActiveSlug == None && activeSlug == None && !mobileOpen && hash == None
    {
      this.headings := headings;
      this.variant := variant;
      visible := {};
      lastActiveSlug := None;
      activeSlug := None;
      mobileOpen := false;
      hash := None;
    }

    /** `activeHeading`. */
    function ActiveHeading(): Option<Heading>
      reads this
    {
      ActiveHeadingOf(headings, activeSlug)
    }

    /**
     * One observer callback. Without headings no observer exists and nothing
     * changes. Otherwise the entries update the visible set; if anything is
     * visible the first visible heading becomes active and remembered, and if
     * nothing is, the remembered heading (if any) stays active.
     */
    method ObserveBatch(entries: seq<Entry>)
      modifies this
      ensures |headings| == 0 ==>
        visible == old(visible) && activeSlug == old(activeSlug) && lastActiveSlug == old(lastActiveSlug)
      ensures |headings| > 0 ==> visible == ApplyEntries(old(visible), entries)
      ensures |headings| > 0 && visible != {} && FirstVisible(headings, visible).Some? ==>
        activeSlug == Some(FirstVisible(headings, visible).value.slug) && lastActiveSlug == activeSlug
      ensures |headings| > 0 && visible != {} && FirstVisible(headings, visible).None? ==>
        activeSlug == old(activeSlug) && lastActiveSlug == old(lastActiveSlug)
      ensures |headings| > 0 && visible == {} ==>
        lastActiveSlug == old(lastActiveSlug) && activeSlug == (if Truthy(old(lastActiveSlug)) then old(lastActiveSlug) else old(activeSlug))
      ensures mobileOpen == old(mobileOpen) && hash == old(hash)
    {
      if |headings| == 0 {
        return;
      }
      var v := visible;
      for k := 0 to |entries|
        invariant v == ApplyEntries(old(visible), entries[..k])
      {
        assert entries[..k + 1][..k] == entries[..k];
        if entries[k].isIntersecting {
          v := v + {entries[k].id};
        } else {
          v := v - {entries[k].id};
        }
      }
      assert entries[..|entries|] == entries;
      visible := v;
      if visible != {} {
        var firstVisible := FirstVisible(headings, visible);
        if firstVisible.Some? {
          lastActiveSlug := Some(firstVisible.value.slug);
          activeSlug := Some(firstVisible.value.slug);
        }
      } else if Truthy(lastActiveSlug) {
        activeSlug := lastActiveSlug;
      }
    }

    /**
     * `handleClick`: when the heading's element exists, its fragment is
     * pushed, it becomes active and, if asked, the mobile panel closes;
     * otherwise nothing changes.
     */
    method Click(slug: string, elementExists: bool, closeMobile: bool)
      modifies this
      ensures elementExists ==>
        activeSlug == Some(slug) && hash == Some("#" + slug) && mobileOpen == (if closeMobile then false else old(mobileOpen))
      ensures !elementExists ==> activeSlug == old(activeSlug) && hash == old(hash) && mobileOpen == old(mobileOpen)
      ensures visible == old(visible) && lastActiveSlug == old(lastActiveSlug)
    {
      if elementExists {
        hash := Some("#" + slug);
        activeSlug := Some(slug);
        if closeMobile {
          mobileOpen := false;
        }
      }
    }

    /** The mobile toggle button. */
    method ToggleMobile()
      modifies this
      ensures mobileOpen == !old(mobileOpen)
      ensures visible == old(visible) && activeSlug == old(activeSlug) && lastActiveSlug == old(lastActiveSlug)
      ensures hash == old(hash)
    {
      mobileOpen := !mobileOpen;
    }

    /** A pointer-down anywhere: on the mobile variant with the panel open, one outside the panel closes it. */
    method PointerDown(outsidePanel: bool)
      modifies this
      ensures mobileOpen == (old(mobileOpen) && !(variant == Mobile && outsidePanel))
      ensures visible == old(visible) && activeSlug == old(activeSlug) && lastActiveSlug == old(lastActiveSlug)
      ensures hash == old(hash)
    {
      if variant == Mobile && mobileOpen && outsidePanel {
        mobileOpen := false;
      }
    }
  }
}
