/**
 * Which entries the CLI's recursive directory copy takes over
 * (packages/cli/src/cli/lib/fs.ts). Reading directories and copying bytes are
 * I/O and not modelled; what is modelled is the decision made for each
 * directory entry: the name filter, the relative-path prefix filter and the
 * split between directories (recursed into) and files (copied). The path of
 * an entry relative to the copy's root, as `path.relative` computes it,
 * arrives as a parameter.
 */
module CopyFilter {
  import opened Wrappers
  import opened Text

  /** `normalizeRel`: backslashes become slashes, then every leading slash goes. */
  function NormalizeRel(value: string): (r: string)
    ensures forall i :: 0 <= i < |r| ==> r[i] != '\\'
    ensures r == [] || r[0] != '/'
    ensures |r| <= |value|
  {
    var slashed := ReplaceChar(value, '\\', '/');
    var r := DropLeadingSlashes(slashed);
    assert forall i :: 0 <= i < |r| ==> r[i] == slashed[|slashed| - |r| + i];
    r
  }

  /** A path that is already normalised is its own normal form. */
  lemma NormalizeRelFixed(value: string)
    requires forall i :: 0 <= i < |value| ==> value[i] != '\\'
    requires value == [] || value[0] != '/'
    ensures NormalizeRel(value) == value
  {
    assert ReplaceChar(value, '\\', '/') == value;
  }

  /** Normalising twice is normalising once. */
  lemma NormalizeRelIdempotent(value: string)
    ensures NormalizeRel(NormalizeRel(value)) == NormalizeRel(value)
  {
    NormalizeRelFixed(NormalizeRel(value));
  }

  /** A backslash-separated, rooted spelling of a path normalises to the slash-separated relative one. */
  lemma NormalizeRelExample()
    ensures NormalizeRel("\\dist\\a") == "dist/a"
  {
    var v := "\\dist\\a";
    var a := ReplaceChar(v, '\\', '/');
    assert a[0] == '/' && a[1] == 'd' && a[2] == 'i' && a[3] == 's' && a[4] == 't' && a[5] == '/' && a[6] == 'a';
    assert a == "/dist/a";
    assert a[1..] == "dist/a";
  }

  /** One prefix covers `rel`: it is `rel` itself, or a non-empty directory that `rel` lies under. */
  predicate Covers(prefix: string, rel: string) {
    rel == prefix || (prefix != "" && StartsWith(rel, prefix + "/"))
  }

  /** Some prefix in the list covers `rel`. */
  predicate Ignored(rel: string, prefixes: seq<string>) {
    exists k :: 0 <= k < |prefixes| && Covers(prefixes[k], rel)
  }

  /** `shouldIgnoreRelPath`: the prefixes are tried in order and the first one that covers `rel` answers. */
  method ShouldIgnoreRelPath(relPosix: string, prefixes: seq<string>) returns (ignored: bool)
    ensures ignored <==> Ignored(relPosix, prefixes)
  {
    for k := 0 to |prefixes|
      invariant forall m :: 0 <= m < k ==> !Covers(prefixes[m], relPosix)
    {
      var prefix := prefixes[k];
      if relPosix == prefix {
        return true;
      }
      if prefix != "" && StartsWith(relPosix, prefix + "/") {
        return true;
      }
    }
    return false;
  }

  /** A prefix matches whole path segments: `dist` covers `dist` and `dist/…` but not `dist-ssr` or `distx`. */
  lemma SegmentBoundary()
    ensures Ignored("dist", ["dist"]) && Ignored("dist/client/index.html", ["dist"])
    ensures !Ignored("dist-ssr", ["dist"]) && !Ignored("distx", ["dist"])
  {
    assert Covers(["dist"][0], "dist");
    var nested := "dist/client/index.html";
    assert nested[..5] == "dist/";
    assert Covers(["dist"][0], nested);
    assert "dist-ssr"[..5] == "dist-" != "dist/";
    assert "distx"[..5] == "distx" != "dist/";
  }

  /** An empty prefix covers only the empty path. */
  lemma EmptyPrefixCoversOnlyEmpty(rel: string)
    ensures Ignored(rel, [""]) <==> rel == ""
  {
    if rel == "" {
      assert Covers([""][0], rel);
    }
  }

  /** Whatever lies under an ignored path is ignored too, so skipping a directory loses nothing the filter would keep. */
  lemma IgnoredBelow(rel: string, name: string, prefixes: seq<string>)
    requires rel != ""
    requires Ignored(rel, prefixes)
    ensures Ignored(rel + "/" + name, prefixes)
  {
    var k :| 0 <= k < |prefixes| && Covers(prefixes[k], rel);
    var p := prefixes[k];
    var child := rel + "/" + name;
    if rel == p {
      assert child[..|p + "/"|] == p + "/";
    } else {
      assert child[..|p + "/"|] == rel[..|p + "/"|];
    }
    assert Covers(p, child);
  }

  /** `copyDir`: the prefixes given by the caller are normalised once, before the walk starts. */
  function NormalizePrefixes(prefixes: Option<seq<string>>): (r: seq<string>)
    ensures prefixes.None? ==> r == []
    ensures prefixes.Some? ==>
      |r| == |prefixes.value| && forall k :: 0 <= k < |r| ==> r[k] == NormalizeRel(prefixes.value[k])
  {
    var given := if prefixes.Some? then prefixes.value else [];
    seq(|given|, k requires 0 <= k < |given| => NormalizeRel(given[k]))
  }

  /**
   * The walk sees the prefixes in normal form: normalising them again, as
   * each entry's relative path is normalised, would change none of them.
   */
  lemma PrefixesNormalisedOnce(prefixes: Option<seq<string>>)
    ensures var ps := NormalizePrefixes(prefixes);
      forall k :: 0 <= k < |ps| ==> NormalizeRel(ps[k]) == ps[k]
  {
    var ps := NormalizePrefixes(prefixes);
    forall k | 0 <= k < |ps| ensures NormalizeRel(ps[k]) == ps[k] {
      NormalizeRelIdempotent(prefixes.value[k]);
    }
  }

  datatype EntryKind = Directory | RegularFile | OtherKind

  /** What the walk does with one entry. */
  datatype Action = Skip | Recurse | Copy | Nothing

  /**
   * The body of `copyDirInternal`'s loop for one entry: a name in
   * `ignoreNames` is skipped before its path is looked at; then a covered
   * relative path is skipped; then a directory is recursed into and a file
   * copied; anything else (a link, a socket) is passed over.
   */
  function EntryAction(ignoreNames: Option<set<string>>, prefixes: seq<string>,
                       name: string, relFromBase: string, kind: EntryKind): (a: Action)
    ensures ignoreNames.Some? && name in ignoreNames.value ==> a == Skip
    ensures a == Skip <==>
      ((ignoreNames.Some? && name in ignoreNames.value) || Ignored(NormalizeRel(relFromBase), prefixes))
    ensures a == Recurse <==> a != Skip && kind == Directory
    ensures a == Copy <==> a != Skip && kind == RegularFile
  {
    if ignoreNames.Some? && name in ignoreNames.value then Skip
    else if Ignored(NormalizeRel(relFromBase), prefixes) then Skip
    else match kind
      case Directory => Recurse
      case RegularFile => Copy
      case OtherKind => Nothing
  }

  /**
   * The decision for one entry, with the prefix test run by the loop above:
   * it agrees with `EntryAction`.
   */
  method DecideEntry(ignoreNames: Option<set<string>>, prefixes: seq<string>,
                     name: string, relFromBase: string, kind: EntryKind) returns (a: Action)
    ensures a == EntryAction(ignoreNames, prefixes, name, relFromBase, kind)
  {
    if ignoreNames.Some? && name in ignoreNames.value {
      return Skip;
    }
    var relPosix := NormalizeRel(relFromBase);
    var ignored := ShouldIgnoreRelPath(relPosix, prefixes);
    if ignored {
      return Skip;
    }
    match kind {
      case Directory => a := Recurse;
      case RegularFile => a := Copy;
      case OtherKind => a := Nothing;
    }
  }
}
