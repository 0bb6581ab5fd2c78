/**
 * Serving the site under a base URL (packages/web-runtime/src/utils/base-path.ts)
 * and resolving asset links against it (packages/web-runtime/src/pages/+Layout.tsx).
 * The build-time `BASE_URL` arrives as the parameter `envBase`.
 */
module BasePath {
  import opened Wrappers
  import opened Text

  /** `normalizeBase`: a missing or empty base is `/`; otherwise it gets a trailing slash. */
  function NormalizeBase(envBase: Option<string>): (r: string)
    ensures |r| > 0 && r[|r| - 1] == '/'
    ensures envBase.None? || envBase.value == "" ==> r == "/"
    ensures envBase.Some? && envBase.value != "" ==>
      (if EndsWith(envBase.value, "/") then r == envBase.value else r == envBase.value + "/")
  {
    if envBase.None? || envBase.value == "" then "/"
    else if EndsWith(envBase.value, "/") then envBase.value
    else envBase.value + "/"
  }

  /** `withBasePath`: a route under a non-root base gets the base in front, unless it already starts with it. */
  function WithBasePath(envBase: Option<string>, routePath: string): (r: string)
    ensures NormalizeBase(envBase) == "/" || StartsWith(routePath, NormalizeBase(envBase)) ==> r == routePath
    ensures NormalizeBase(envBase) != "/" && !StartsWith(routePath, NormalizeBase(envBase)) ==>
      r == NormalizeBase(envBase)[..|NormalizeBase(envBase)| - 1] + Rooted(routePath)
  {
    var base := NormalizeBase(envBase);
    if base == "/" then routePath
    else if StartsWith(routePath, base) then routePath
    else
      var normalizedRoute := if StartsWith(routePath, "/") then routePath else "/" + routePath;
      base[..|base| - 1] + normalizedRoute
  }

  /** `stripBasePath`: a path under a non-root base loses the base but keeps a leading slash. */
  function StripBasePath(envBase: Option<string>, pathname: string): (r: string)
    ensures NormalizeBase(envBase) == "/" || !StartsWith(pathname, NormalizeBase(envBase)) ==> r == pathname
    ensures NormalizeBase(envBase) != "/" && StartsWith(pathname, NormalizeBase(envBase)) ==>
      |r| > 0 && r[0] == '/' && NormalizeBase(envBase)[..|NormalizeBase(envBase)| - 1] + r == pathname
  {
    var base := NormalizeBase(envBase);
    if base == "/" then pathname
    else if StartsWith(pathname, base) then
      var stripped := pathname[|base| - 1..];
      assert stripped[0] == base[|base| - 1] == '/';
      assert base[..|base| - 1] + stripped == pathname;
      if StartsWith(stripped, "/") then stripped else "/" + stripped
    else pathname
  }

  /** A route given with or without its leading slash. */
  function Rooted(routePath: string): (r: string)
    ensures |r| > 0 && r[0] == '/'
  {
    if StartsWith(routePath, "/") then routePath else "/" + routePath
  }

  /**
   * Adding and then stripping the base gives the route back, with a leading
   * slash, whenever the route did not already start with the base.
   */
  lemma StripWithBase(envBase: Option<string>, routePath: string)
    requires !StartsWith(routePath, NormalizeBase(envBase))
    ensures StripBasePath(envBase, WithBasePath(envBase, routePath)) == (if NormalizeBase(envBase) == "/" then routePath else Rooted(routePath))
  {
    var base := NormalizeBase(envBase);
    if base != "/" {
      var b := base[..|base| - 1];
      var rr := Rooted(routePath);
      var w := b + rr;
      assert WithBasePath(envBase, routePath) == w;
      assert base == b + "/";
      assert StartsWith(w, base) by {
        assert w[..|base|] == b + [rr[0]];
      }
      var stripped := w[|base| - 1..];
      assert stripped == rr;
    }
  }

  /**
   * Stripping and then adding the base gives the path back, whenever what
   * remains after the strip does not itself start with the base.
   */
  lemma WithStripBase(envBase: Option<string>, pathname: string)
    requires StartsWith(pathname, NormalizeBase(envBase))
    requires !StartsWith(StripBasePath(envBase, pathname), NormalizeBase(envBase))
    ensures WithBasePath(envBase, StripBasePath(envBase, pathname)) == pathname
  {
    var base := NormalizeBase(envBase);
    if base != "/" {
      var s := StripBasePath(envBase, pathname);
      assert StartsWith(s, "/") by { assert s[..1] == [s[0]]; }
    }
  }

  /** A route that already carries the base is left alone, so a second call adds nothing. */
  lemma WithBasePathIdempotent(envBase: Option<string>, routePath: string)
    ensures WithBasePath(envBase, WithBasePath(envBase, routePath)) == WithBasePath(envBase, routePath)
  {
    var base := NormalizeBase(envBase);
    if base != "/" && !StartsWith(routePath, base) {
      var b := base[..|base| - 1];
      var rr := Rooted(routePath);
      assert base == b + "/";
      var w := b + rr;
      assert StartsWith(w, base) by {
        assert w[..|base|] == b + [rr[0]];
      }
    }
  }

  /** `/^(https?:)?\/\//i`: a scheme-relative or HTTP(S) URL, letter case aside. */
  predicate IsAbsoluteUrl(asset: string) {
    var lower := ToLower(asset);
    StartsWith(lower, "//") || StartsWith(lower, "http://") || StartsWith(lower, "https://")
  }

  /**
   * `resolveAssetHref`: no asset gives nothing; an absolute or `data:` URL is
   * kept; anything else is served under the base.
   */
  function ResolveAssetHref(envBase: Option<string>, asset: Option<string>): (r: Option<string>)
    ensures r.None? <==> asset.None? || asset.value == ""
    ensures r.Some? && (IsAbsoluteUrl(asset.value) || StartsWith(asset.value, "data:")) ==> r.value == asset.value
    ensures r.Some? && !(IsAbsoluteUrl(asset.value) || StartsWith(asset.value, "data:")) ==>
      r.value == WithBasePath(envBase, asset.value)
  {
    if asset.None? || asset.value == "" then None
    else if IsAbsoluteUrl(asset.value) || StartsWith(asset.value, "data:") then Some(asset.value)
    else Some(WithBasePath(envBase, asset.value))
  }

  /** A base without a trailing slash is normalised by adding one. */
  lemma BaseGainsSlash(base: string)
    requires |base| > 1 && base[|base| - 1] != '/'
    ensures NormalizeBase(Some(base)) == base + "/"
  {
    assert !EndsWith(base, "/") by {
      assert base[|base| - 1..][0] == base[|base| - 1];
    }
  }

  /**
   * A relative asset (neither absolute, nor `data:`, nor rooted, nor already
   * under the base) is served from under a non-root base: the base `/docs` and
   * the asset `favicon.ico` give `/docs/favicon.ico`.
   */
  lemma AssetUnderBase(base: string, asset: string)
    requires |base| > 1 && base[|base| - 1] != '/'
    requires asset != "" && !IsAbsoluteUrl(asset) && !StartsWith(asset, "data:")
    requires !StartsWith(asset, "/") && !StartsWith(asset, base + "/")
    ensures ResolveAssetHref(Some(base), Some(asset)) == Some(base + "/" + asset)
  {
    BaseGainsSlash(base);
    var b := base + "/";
    assert b != "/";
    assert b[..|b| - 1] == base;
    assert WithBasePath(Some(base), asset) == base + ("/" + asset);
    assert base + ("/" + asset) == base + "/" + asset;
  }
}
