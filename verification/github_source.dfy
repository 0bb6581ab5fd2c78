/**
 * Where the documentation comes from (both prepare-docs.ts scripts):
 * `resolveSource` classifies the input as a local directory or a GitHub URL,
 * `parseGitHubUrl` reads owner, repo, ref and docsPath out of a GitHub URL,
 * `escapeRegex` quotes regular-expression metacharacters, and the fetch loop
 * strips the docsPath prefix from each entry path.
 *
 * Each GitHub pattern is unanchored and case-sensitive. A `[^/]+` group
 * followed by `/`, by `$` or by an optional `/` always takes the whole run of
 * non-slash characters, so each match at a position is determined by that
 * position; the leftmost position that matches wins. `(.*)` stops at the
 * first line terminator.
 */
module GitHubSource {
  import opened Wrappers
  import opened Text
  import opened Types

  // ---------------------------------------------------------------------
  // decodeURIComponent, on ASCII
  // ---------------------------------------------------------------------

  function HexValue(c: char): (v: int)
    ensures -1 <= v < 16
  {
    if '0' <= c <= '9' then c as int - '0' as int
    else if 'a' <= c <= 'f' then c as int - 'a' as int + 10
    else if 'A' <= c <= 'F' then c as int - 'A' as int + 10
    else -1
  }

  const Malformed := "URI malformed"

  /**
   * `decodeURIComponent`: `%XY` becomes the character with that code; a `%`
   * not followed by two hex digits throws. Escapes of bytes 0x80 and above
   * start UTF-8 sequences, which are outside this ASCII model: they are
   * reported as malformed here.
   */
  function PercentDecode(s: string): (r: Result<string>)
    decreases |s|
    ensures r.Ok? ==> |r.value| <= |s|
  {
    if |s| == 0 then Ok("")
    else if s[0] != '%' then
      match PercentDecode(s[1..])
      case Ok(t) => Ok([s[0]] + t)
      case Err(m) => Err(m)
    else if |s| < 3 || HexValue(s[1]) < 0 || HexValue(s[2]) < 0 then Err(Malformed)
    else
      var code := HexValue(s[1]) * 16 + HexValue(s[2]);
      if code >= 128 then Err(Malformed)
      else
        match PercentDecode(s[3..])
        case Ok(t) => Ok([code as char] + t)
        case Err(m) => Err(m)
  }

  /** Text without `%` decodes to itself. */
  lemma {:induction false} DecodePlain(s: string)
    requires '%' !in s
    ensures PercentDecode(s) == Ok(s)
  {
    if |s| > 0 {
      assert s == [s[0]] + s[1..];
      DecodePlain(s[1..]);
    }
  }

  function HexDigit(v: int): char
    requires 0 <= v < 16
  {
    if v < 10 then ('0' as int + v) as char else ('A' as int + v - 10) as char
  }

  /** Percent-encode every character (an independent inverse for the ASCII range). */
  function PercentEncode(s: string): (r: string)
    requires forall i :: 0 <= i < |s| ==> s[i] as int < 128
    ensures |r| == 3 * |s|
  {
    if |s| == 0 then ""
    else ['%', HexDigit(s[0] as int / 16), HexDigit(s[0] as int % 16)] + PercentEncode(s[1..])
  }

  lemma HexRoundTrip(v: int)
    requires 0 <= v < 16
    ensures HexValue(HexDigit(v)) == v
  {
  }

  lemma DecodeEncodedChar(c: char, tail: string)
    requires c as int < 128
    ensures var e := ['%', HexDigit(c as int / 16), HexDigit(c as int % 16)] + tail;
      PercentDecode(e) == (match PercentDecode(tail) case Ok(t) => Ok([c] + t) case Err(m) => Err(m))
  {
    var hi, lo := c as int / 16, c as int % 16;
    HexRoundTrip(hi);
    HexRoundTrip(lo);
    assert hi * 16 + lo == c as int;
    var e := ['%', HexDigit(hi), HexDigit(lo)] + tail;
    assert e[3..] == tail;
  }

  /** Decoding undoes percent-encoding. */
  lemma {:induction false} DecodeEncode(s: string)
    requires forall i :: 0 <= i < |s| ==> s[i] as int < 128
    ensures PercentDecode(PercentEncode(s)) == Ok(s)
  {
    if |s| > 0 {
      DecodeEncode(s[1..]);
      DecodeEncodedChar(s[0], PercentEncode(s[1..]));
      assert s == [s[0]] + s[1..];
    }
  }

  /** A trailing `%` with nothing after it makes decoding throw. */
  lemma DecodeTrailingPercent(s: string)
    requires PercentDecode(s).Ok?
    ensures PercentDecode(s + "%").Err?
    decreases |s|
  {
    if |s| > 0 {
      var t := s + "%";
      assert t[1..] == s[1..] + "%";
      if s[0] == '%' {
        assert t[3..] == s[3..] + "%";
        DecodeTrailingPercent(s[3..]);
      } else {
        DecodeTrailingPercent(s[1..]);
      }
    }
  }

  // ---------------------------------------------------------------------
  // The three URL patterns
  // ---------------------------------------------------------------------

  /** Length of the leading run of non-`/` characters (`[^/]+`, greedy). */
  function SegmentRun(s: string): (n: nat)
    ensures n <= |s|
    ensures forall k :: 0 <= k < n ==> s[k] != '/'
    ensures n < |s| ==> s[n] == '/'
  {
    if |s| > 0 && s[0] != '/' then 1 + SegmentRun(s[1..]) else 0
  }

  /** Length of the leading run of non-line-terminators (`.*`, greedy). */
  function LineRun(s: string): (n: nat)
    ensures n <= |s|
    ensures forall k :: 0 <= k < n ==> !IsLineTerminator(s[k])
    ensures n < |s| ==> IsLineTerminator(s[n])
  {
    if |s| > 0 && !IsLineTerminator(s[0]) then 1 + LineRun(s[1..]) else 0
  }

  const Host := "github.com/"

  /** The groups of a `/tree/` or `/blob/` match: owner, repo, ref and the raw rest. */
  datatype Captures = Captures(owner: string, repo: string, ref: string, rest: string)

  /**
   * `github\.com\/([^/]+)\/([^/]+)\/KIND\/([^/]+)\/?(.*)` matched at position `k`.
   * Nothing in the pattern looks behind, so the match reads only `url[k..]`.
   */
  function KindAt(url: string, k: nat, kind: string): Option<Captures> {
    if !OccursAt(url, Host, k) then None else OwnerPart(url[k + |Host|..], kind)
  }

  /** `([^/]+)\/` for the owner, then the rest of the pattern. */
  function OwnerPart(s: string, kind: string): Option<Captures> {
    var n := SegmentRun(s);
    if n == 0 || n == |s| then None
    else
      match RepoPart(s[n + 1..], kind)
      case None => None
      case Some((repo, ref, rest)) => Some(Captures(s[..n], repo, ref, rest))
  }

  /** `([^/]+)\/KIND\/` for the repository, then the tail. */
  function RepoPart(s: string, kind: string): Option<(string, string, string)> {
    var n := SegmentRun(s);
    if n == 0 || !StartsWith(s[n..], "/" + kind + "/") then None
    else
      match TailPart(s[n + |kind| + 2..])
      case None => None
      case Some((ref, rest)) => Some((s[..n], ref, rest))
  }

  /** `([^/]+)\/?(.*)`: the ref and the raw rest. */
  function TailPart(s: string): Option<(string, string)> {
    var n := SegmentRun(s);
    if n == 0 then None
    else
      var t := s[n..];
      var b := if |t| > 0 && t[0] == '/' then t[1..] else t;
      Some((s[..n], b[..LineRun(b)]))
  }

  /** `github\.com\/([^/]+)\/([^/]+)(?:$|\/)` matched at position `k`: owner and repo. */
  function RepoAt(url: string, k: nat): Option<(string, string)> {
    if !OccursAt(url, Host, k) then None else OwnerRepoPart(url[k + |Host|..])
  }

  function OwnerRepoPart(s: string): Option<(string, string)> {
    var n1 := SegmentRun(s);
    if n1 == 0 || n1 == |s| then None
    else
      var t := s[n1 + 1..];
      var n2 := SegmentRun(t);
      if n2 == 0 then None else Some((s[..n1], t[..n2]))
  }

  /** The leftmost match of a `/tree/` or `/blob/` pattern at or after `k`. */
  function FirstKind(url: string, k: nat, kind: string): Option<Captures>
    decreases |url| - k
  {
    if k > |url| then None
    else if KindAt(url, k, kind).Some? then KindAt(url, k, kind)
    else FirstKind(url, k + 1, kind)
  }

  function FirstRepo(url: string, k: nat): Option<(string, string)>
    decreases |url| - k
  {
    if k > |url| then None
    else if RepoAt(url, k).Some? then RepoAt(url, k)
    else FirstRepo(url, k + 1)
  }

  /** The match at `k` is the leftmost when nothing matches before it. */
  lemma {:induction false} FirstKindAt(url: string, from: nat, k: nat, kind: string)
    requires from <= k <= |url|
    requires forall j :: from <= j < k ==> KindAt(url, j, kind).None?
    ensures FirstKind(url, from, kind) == FirstKind(url, k, kind)
    decreases k - from
  {
    if from < k { FirstKindAt(url, from + 1, k, kind); }
  }

  lemma {:induction false} FirstRepoAt(url: string, from: nat, k: nat)
    requires from <= k <= |url|
    requires forall j :: from <= j < k ==> RepoAt(url, j).None?
    ensures FirstRepo(url, from) == FirstRepo(url, k)
    decreases k - from
  {
    if from < k { FirstRepoAt(url, from + 1, k); }
  }

  /** A pattern needs the host text, so without it nothing matches. */
  lemma {:induction false} NoHostNoMatch(url: string, from: nat, kind: string)
    requires forall j :: from <= j ==> !OccursAt(url, Host, j)
    ensures FirstKind(url, from, kind).None? && FirstRepo(url, from).None?
    decreases |url| - from
  {
    if from <= |url| { NoHostNoMatch(url, from + 1, kind); }
  }

  /** The blob form's docsPath: the directory part of the decoded file path. */
  function DirectoryPart(fullPath: string): (r: string)
    ensures var k := LastIndexOfChar(fullPath, '/'); if k > 0 then r == fullPath[..k] else r == ""
  {
    var k := LastIndexOfChar(fullPath, '/');
    if k > 0 then fullPath[..k] else ""
  }

  /**
   * `parseGitHubUrl`: tree before blob before the bare repository form;
   * `None` is the source's `null`, `Err` a throwing `decodeURIComponent`.
   */
  function ParseGitHubUrl(url: string): Result<Option<GitHubRepo>> {
    match FirstKind(url, 0, "tree")
    case Some(c) =>
      (match PercentDecode(c.rest)
       case Ok(d) => Ok(Some(GitHubRepo(c.owner, c.repo, c.ref, d)))
       case Err(m) => Err(m))
    case None =>
      match FirstKind(url, 0, "blob")
      case Some(c) =>
        (match PercentDecode(c.rest)
         case Ok(d) => Ok(Some(GitHubRepo(c.owner, c.repo, c.ref, DirectoryPart(d))))
         case Err(m) => Err(m))
      case None =>
        match FirstRepo(url, 0)
        case Some((owner, repo)) => Ok(Some(GitHubRepo(owner, repo, "main", "")))
        case None => Ok(None)
  }

  /** `/^https?:\/\/(www\.)?github\.com\//i`. */
  predicate IsGitHubUrl(input: string) {
    var low := ToLower(input);
    var afterScheme :=
      if StartsWith(low, "https://") then Some(low[8..])
      else if StartsWith(low, "http://") then Some(low[7..])
      else None;
    afterScheme.Some? && (StartsWith(afterScheme.value, "github.com/") || StartsWith(afterScheme.value, "www.github.com/"))
  }

  datatype PreparedSource = Local(source: string) | GitHub(source: string, repo: GitHubRepo)

  /** `resolveSource`: a local path is kept verbatim; a GitHub URL that does not parse throws. */
  function ResolveSource(input: string): (r: Result<PreparedSource>)
    ensures !IsGitHubUrl(input) ==> r == Ok(Local(input))
    ensures IsGitHubUrl(input) && ParseGitHubUrl(input) == Ok(None) ==> r == Err("Invalid GitHub URL: " + input)
    ensures r.Ok? && r.value.GitHub? ==> IsGitHubUrl(input) && ParseGitHubUrl(input) == Ok(Some(r.value.repo))
  {
    if !IsGitHubUrl(input) then Ok(Local(input))
    else
      match ParseGitHubUrl(input)
      case Err(m) => Err(m)
      case Ok(None) => Err("Invalid GitHub URL: " + input)
      case Ok(Some(repo)) => Ok(GitHub(input, repo))
  }

  // ---------------------------------------------------------------------
  // Facts about concrete URL shapes
  // ---------------------------------------------------------------------

  const Https := "https://"

  /** An occurrence needs its first character in place. */
  lemma FirstCharMismatch(s: string, t: string, k: nat)
    requires |t| > 0 && (k >= |s| || s[k] != t[0])
    ensures !OccursAt(s, t, k)
  {
    if k + |t| <= |s| { assert s[k..k + |t|][0] == s[k]; }
  }

  lemma HttpsPrefixHasNoHost(url: string)
    requires StartsWith(url, Https)
    ensures forall j :: 0 <= j < |Https| ==> !OccursAt(url, Host, j)
  {
    forall j | 0 <= j < |Https| ensures !OccursAt(url, Host, j) {
      assert url[j] == Https[j];
      FirstCharMismatch(url, Host, j);
    }
  }

  /** Lowercasing distributes over concatenation and leaves lowercase text alone. */
  lemma LowerConcat(a: string, b: string)
    ensures ToLower(a + b) == ToLower(a) + ToLower(b)
  {
  }

  lemma LowerOfLower(s: string)
    requires forall i :: 0 <= i < |s| ==> !IsUpper(s[i])
    ensures ToLower(s) == s
  {
  }

  lemma GitHubPrefixClassified(tail: string)
    ensures IsGitHubUrl(Https + Host + tail)
  {
    var url := Https + Host + tail;
    LowerOfLower(Https + Host);
    LowerConcat(Https + Host, tail);
    var low := ToLower(url);
    assert low == Https + Host + ToLower(tail);
    assert low[..8] == Https;
    assert low[8..] == Host + ToLower(tail);
    assert low[8..][..11] == Host;
  }

  /** `[^/]+` reads exactly `seg` when a slash or the end follows it. */
  lemma {:induction false} SegmentOf(seg: string, tail: string)
    requires '/' !in seg && (tail == [] || tail[0] == '/')
    ensures SegmentRun(seg + tail) == |seg|
    decreases |seg|
  {
    if |seg| > 0 {
      assert (seg + tail)[1..] == seg[1..] + tail;
      SegmentOf(seg[1..], tail);
    } else {
      assert seg + tail == tail;
    }
  }

  /** `.*` reads the whole text when it holds no line terminator. */
  lemma {:induction false} LineOf(s: string)
    requires forall k :: 0 <= k < |s| ==> !IsLineTerminator(s[k])
    ensures LineRun(s) == |s|
  {
    if |s| > 0 { LineOf(s[1..]); }
  }

  /** The tail reads a single-segment ref, one slash and the rest of the line. */
  lemma TailOf(ref: string, rest: string)
    requires ref != "" && '/' !in ref
    requires forall k :: 0 <= k < |rest| ==> !IsLineTerminator(rest[k])
    ensures TailPart(ref + "/" + rest) == Some((ref, rest))
  {
    var s := ref + "/" + rest;
    assert s == ref + ("/" + rest);
    SegmentOf(ref, "/" + rest);
    var t := s[|ref|..];
    assert s[..|ref|] == ref && t == "/" + rest;
    assert |t| > 0 && t[0] == '/' && t[1..] == rest;
    LineOf(rest);
    assert rest[..LineRun(rest)] == rest;
  }

  /** After a repository segment the pattern needs `/KIND/` and then reads the tail. */
  lemma RepoPartOf(repo: string, kind: string, u: string)
    requires repo != "" && '/' !in repo
    ensures RepoPart(repo + "/" + (kind + "/" + u), kind)
      == (match TailPart(u) case None => None case Some((ref, rest)) => Some((repo, ref, rest)))
  {
    var s := repo + "/" + (kind + "/" + u);
    var t := "/" + (kind + "/" + u);
    assert s == repo + t;
    SegmentOf(repo, t);
    assert s[..|repo|] == repo && s[|repo|..] == t;
    MarkerThenRest(kind, u);
    assert s[|repo| + |kind| + 2..] == u;
  }

  lemma MarkerThenRest(kind: string, u: string)
    ensures var t := "/" + (kind + "/" + u);
      StartsWith(t, "/" + kind + "/") && t[|kind| + 2..] == u
  {
    var t := "/" + (kind + "/" + u);
    assert t == ("/" + kind + "/") + u;
  }

  /** A different first letter after the repository segment: no match for `kind`. */
  lemma RepoPartOtherKind(repo: string, other: string, u: string, kind: string)
    requires repo != "" && '/' !in repo
    requires other != "" && kind != "" && other[0] != kind[0]
    ensures RepoPart(repo + "/" + (other + "/" + u), kind).None?
  {
    var s := repo + "/" + (other + "/" + u);
    var t := "/" + (other + "/" + u);
    assert s == repo + t;
    SegmentOf(repo, t);
    assert s[|repo|..] == t;
    assert t[1] == other[0];
    var m := "/" + kind + "/";
    assert m[1] == kind[0];
    if |m| <= |t| {
      assert t[..|m|][1] == t[1];
    }
  }

  /** The owner segment and one slash, then whatever the repository part reads. */
  lemma OwnerPartOf(owner: string, t: string, kind: string)
    requires owner != "" && '/' !in owner
    ensures OwnerPart(owner + "/" + t, kind)
      == (match RepoPart(t, kind) case None => None case Some((repo, ref, rest)) => Some(Captures(owner, repo, ref, rest)))
  {
    var s := owner + "/" + t;
    assert s == owner + ("/" + t);
    SegmentOf(owner, "/" + t);
    assert SegmentRun(s) == |owner| < |s|;
    assert s[..|owner|] == owner && s[|owner| + 1..] == t;
    match RepoPart(t, kind) {
      case None =>
      case Some((repo, ref, rest)) =>
        assert OwnerPart(s, kind) == Some(Captures(owner, repo, ref, rest));
    }
  }

  /** `OWNER/REPO/KIND/REF/REST`, nested from the right. */
  lemma JoinFive(a: string, b: string, c: string, d: string, e: string)
    ensures Join([a, b, c, d, e], "/") == a + "/" + (b + "/" + (c + "/" + (d + "/" + e)))
  {
    assert [d, e][1..] == [e];
    assert Join([d, e], "/") == d + "/" + e;
    assert [c, d, e][1..] == [d, e];
    assert Join([c, d, e], "/") == c + "/" + (d + "/" + e);
    assert [b, c, d, e][1..] == [c, d, e];
    assert Join([b, c, d, e], "/") == b + "/" + (c + "/" + (d + "/" + e));
    assert [a, b, c, d, e][1..] == [b, c, d, e];
  }

  /** After `https://github.com/`, the path reads as the patterns see it. */
  lemma HostPrefix(path: string)
    ensures var url := Https + Host + path;
      OccursAt(url, Host, |Https|) && url[|Https| + |Host|..] == path
  {
    var url := Https + Host + path;
    assert url[..|Https| + |Host|] == Https + Host;
    assert url[|Https|..|Https| + |Host|] == Host;
  }

  /** When the path does not contain the host, the host text occurs only once. */
  lemma HostOnce(path: string)
    requires forall j :: !OccursAt(path, Host, j)
    ensures var url := Https + Host + path;
      forall j :: 0 <= j && j != |Https| ==> !OccursAt(url, Host, j)
  {
    var url := Https + Host + path;
    var p := |Https| + |Host|;
    HttpsPrefixHasNoHost(url);
    forall j | |Https| < j ensures !OccursAt(url, Host, j) {
      if j < p {
        assert url[j] == Host[j - |Https|];
        FirstCharMismatch(url, Host, j);
      } else if j + |Host| <= |url| {
        assert url[j..j + |Host|] == path[j - p..j - p + |Host|];
        assert !OccursAt(path, Host, j - p);
      }
    }
  }

  /**
   * The tree form: owner, repo and ref are single segments and docsPath is
   * the decoded rest, so a branch name containing `/` is split between ref
   * and docsPath.
   */
  lemma TreeUrl(owner: string, repo: string, ref: string, rest: string, decoded: string)
    requires owner != "" && repo != "" && ref != ""
    requires '/' !in owner && '/' !in repo && '/' !in ref
    requires forall k :: 0 <= k < |rest| ==> !IsLineTerminator(rest[k])
    requires PercentDecode(rest) == Ok(decoded)
    ensures ParseGitHubUrl(Https + Host + Join([owner, repo, "tree", ref, rest], "/"))
      == Ok(Some(GitHubRepo(owner, repo, ref, decoded)))
  {
    var url := Https + Host + Join([owner, repo, "tree", ref, rest], "/");
    FirstTreeMatch(owner, repo, ref, rest);
    ParseTreeMatch(url, Captures(owner, repo, ref, rest), decoded);
  }

  lemma FirstTreeMatch(owner: string, repo: string, ref: string, rest: string)
    requires owner != "" && repo != "" && ref != ""
    requires '/' !in owner && '/' !in repo && '/' !in ref
    requires forall k :: 0 <= k < |rest| ==> !IsLineTerminator(rest[k])
    ensures FirstKind(Https + Host + Join([owner, repo, "tree", ref, rest], "/"), 0, "tree")
      == Some(Captures(owner, repo, ref, rest))
  {
    var url := Https + Host + Join([owner, repo, "tree", ref, rest], "/");
    HttpsPrefixHasNoHost(url);
    KindAtHost(owner, repo, "tree", ref, rest);
    FirstKindAt(url, 0, |Https|, "tree");
  }

  /** The leftmost tree match decides the result. */
  lemma ParseTreeMatch(url: string, c: Captures, decoded: string)
    requires FirstKind(url, 0, "tree") == Some(c)
    requires PercentDecode(c.rest) == Ok(decoded)
    ensures ParseGitHubUrl(url) == Ok(Some(GitHubRepo(c.owner, c.repo, c.ref, decoded)))
  {
  }

  /** Without a tree match, the leftmost blob match decides the result. */
  lemma ParseBlobMatch(url: string, c: Captures, decoded: string)
    requires FirstKind(url, 0, "tree").None?
    requires FirstKind(url, 0, "blob") == Some(c)
    requires PercentDecode(c.rest) == Ok(decoded)
    ensures ParseGitHubUrl(url) == Ok(Some(GitHubRepo(c.owner, c.repo, c.ref, DirectoryPart(decoded))))
  {
  }

  /** At the host, a `KIND` pattern reads the path `OWNER/REPO/KIND/REF/REST`. */
  lemma KindAtHost(owner: string, repo: string, kind: string, ref: string, rest: string)
    requires owner != "" && repo != "" && ref != ""
    requires '/' !in owner && '/' !in repo && '/' !in ref
    requires forall k :: 0 <= k < |rest| ==> !IsLineTerminator(rest[k])
    ensures KindAt(Https + Host + Join([owner, repo, kind, ref, rest], "/"), |Https|, kind)
      == Some(Captures(owner, repo, ref, rest))
  {
    var path := Join([owner, repo, kind, ref, rest], "/");
    JoinFive(owner, repo, kind, ref, rest);
    HostPrefix(path);
    TailOf(ref, rest);
    RepoPartOf(repo, kind, ref + "/" + rest);
    OwnerPartOf(owner, repo + "/" + (kind + "/" + (ref + "/" + rest)), kind);
  }

  /** At the host, the tree pattern does not read a blob path. */
  lemma TreeMissesBlob(owner: string, repo: string, ref: string, rest: string)
    requires owner != "" && repo != ""
    requires '/' !in owner && '/' !in repo
    ensures KindAt(Https + Host + Join([owner, repo, "blob", ref, rest], "/"), |Https|, "tree").None?
  {
    var path := Join([owner, repo, "blob", ref, rest], "/");
    JoinFive(owner, repo, "blob", ref, rest);
    HostPrefix(path);
    RepoPartOtherKind(repo, "blob", ref + "/" + rest, "tree");
    OwnerPartOf(owner, repo + "/" + ("blob" + "/" + (ref + "/" + rest)), "tree");
  }

  /**
   * The blob form: docsPath is the directory part of the decoded file path.
   * A tree match anywhere would win, so the host must not reappear in the path.
   */
  lemma BlobUrl(owner: string, repo: string, ref: string, rest: string, decoded: string)
    requires owner != "" && repo != "" && ref != ""
    requires '/' !in owner && '/' !in repo && '/' !in ref
    requires forall k :: 0 <= k < |rest| ==> !IsLineTerminator(rest[k])
    requires forall j :: !OccursAt(Join([owner, repo, "blob", ref, rest], "/"), Host, j)
    requires PercentDecode(rest) == Ok(decoded)
    ensures ParseGitHubUrl(Https + Host + Join([owner, repo, "blob", ref, rest], "/"))
      == Ok(Some(GitHubRepo(owner, repo, ref, DirectoryPart(decoded))))
  {
    var url := Https + Host + Join([owner, repo, "blob", ref, rest], "/");
    FirstBlobNoTree(owner, repo, ref, rest);
    FirstBlobMatch(owner, repo, ref, rest);
    ParseBlobMatch(url, Captures(owner, repo, ref, rest), decoded);
  }

  lemma FirstBlobNoTree(owner: string, repo: string, ref: string, rest: string)
    requires owner != "" && repo != ""
    requires '/' !in owner && '/' !in repo
    requires forall j :: !OccursAt(Join([owner, repo, "blob", ref, rest], "/"), Host, j)
    ensures FirstKind(Https + Host + Join([owner, repo, "blob", ref, rest], "/"), 0, "tree").None?
  {
    var path := Join([owner, repo, "blob", ref, rest], "/");
    var url := Https + Host + path;
    HostOnce(path);
    TreeMissesBlob(owner, repo, ref, rest);
    FirstKindAt(url, 0, |Https| + 1, "tree");
    NoHostNoMatch(url, |Https| + 1, "tree");
  }

  lemma FirstBlobMatch(owner: string, repo: string, ref: string, rest: string)
    requires owner != "" && repo != "" && ref != ""
    requires '/' !in owner && '/' !in repo && '/' !in ref
    requires forall k :: 0 <= k < |rest| ==> !IsLineTerminator(rest[k])
    ensures FirstKind(Https + Host + Join([owner, repo, "blob", ref, rest], "/"), 0, "blob")
      == Some(Captures(owner, repo, ref, rest))
  {
    var url := Https + Host + Join([owner, repo, "blob", ref, rest], "/");
    HttpsPrefixHasNoHost(url);
    KindAtHost(owner, repo, "blob", ref, rest);
    FirstKindAt(url, 0, |Https|, "blob");
  }

  /** Without a tree or blob match, the leftmost bare repository match decides the result. */
  lemma ParseRepoMatch(url: string, owner: string, repo: string)
    requires FirstKind(url, 0, "tree").None? && FirstKind(url, 0, "blob").None?
    requires FirstRepo(url, 0) == Some((owner, repo))
    ensures ParseGitHubUrl(url) == Ok(Some(GitHubRepo(owner, repo, "main", "")))
  {
  }

  /** At the host, `OWNER/REPO` has no `/KIND/` after the repository segment. */
  lemma RepoPathNoKind(owner: string, repo: string, kind: string)
    requires owner != "" && repo != ""
    requires '/' !in owner && '/' !in repo
    ensures KindAt(Https + Host + (owner + "/" + repo), |Https|, kind).None?
  {
    HostPrefix(owner + "/" + repo);
    SegmentOf(repo, "");
    assert repo + "" == repo;
    OwnerPartOf(owner, repo, kind);
  }

  /** At the host, the bare repository pattern reads `OWNER/REPO`. */
  lemma RepoPathRepoAt(owner: string, repo: string)
    requires owner != "" && repo != ""
    requires '/' !in owner && '/' !in repo
    ensures RepoAt(Https + Host + (owner + "/" + repo), |Https|) == Some((owner, repo))
  {
    var path := owner + "/" + repo;
    HostPrefix(path);
    SegmentOf(repo, "");
    assert repo + "" == repo;
    assert path == owner + ("/" + repo);
    SegmentOf(owner, "/" + repo);
    assert path[..|owner|] == owner && path[|owner| + 1..] == repo;
  }

  /** When the host occurs only once, `OWNER/REPO` matches no tree or blob pattern anywhere. */
  lemma RepoUrlNoKind(owner: string, repo: string, kind: string)
    requires owner != "" && repo != ""
    requires '/' !in owner && '/' !in repo
    requires forall j :: !OccursAt(owner + "/" + repo, Host, j)
    ensures FirstKind(Https + Host + (owner + "/" + repo), 0, kind).None?
  {
    var path := owner + "/" + repo;
    var url := Https + Host + path;
    HostOnce(path);
    RepoPathNoKind(owner, repo, kind);
    NoHostNoMatch(url, |Https| + 1, kind);
    FirstKindAt(url, 0, |Https|, kind);
  }

  /** When the host occurs only once, the leftmost bare repository match is `OWNER/REPO`. */
  lemma RepoUrlFirstRepo(owner: string, repo: string)
    requires owner != "" && repo != ""
    requires '/' !in owner && '/' !in repo
    requires forall j :: !OccursAt(owner + "/" + repo, Host, j)
    ensures FirstRepo(Https + Host + (owner + "/" + repo), 0) == Some((owner, repo))
  {
    var path := owner + "/" + repo;
    var url := Https + Host + path;
    HostOnce(path);
    RepoPathRepoAt(owner, repo);
    FirstRepoAt(url, 0, |Https|);
  }

  /** The bare repository form: ref `main` and an empty docsPath. */
  lemma RepoUrl(owner: string, repo: string)
    requires owner != "" && repo != ""
    requires '/' !in owner && '/' !in repo
    requires forall j :: !OccursAt(owner + "/" + repo, Host, j)
    ensures ParseGitHubUrl(Https + Host + owner + "/" + repo) == Ok(Some(GitHubRepo(owner, repo, "main", "")))
  {
    var url := Https + Host + (owner + "/" + repo);
    assert url == Https + Host + owner + "/" + repo;
    RepoUrlNoKind(owner, repo, "tree");
    RepoUrlNoKind(owner, repo, "blob");
    RepoUrlFirstRepo(owner, repo);
    ParseRepoMatch(url, owner, repo);
  }

  /** An owner alone cannot supply the slash after the owner segment. */
  lemma OwnerOnlyNoHost(owner: string)
    requires '/' !in owner
    ensures forall j :: !OccursAt(owner, Host, j)
  {
    forall j | 0 <= j ensures !OccursAt(owner, Host, j) {
      if j + |Host| <= |owner| {
        assert owner[j..j + |Host|][10] == owner[j + 10];
      }
    }
  }

  /** No pattern matches anywhere: the URL is not a repository URL. */
  lemma ParseNoMatch(url: string)
    requires FirstKind(url, 0, "tree").None? && FirstKind(url, 0, "blob").None?
    requires FirstRepo(url, 0).None?
    ensures ParseGitHubUrl(url) == Ok(None)
  {
  }

  /** At the host, an owner alone has no slash after it for any pattern to read. */
  lemma OwnerAtHost(owner: string, kind: string)
    requires '/' !in owner
    ensures KindAt(Https + Host + owner, |Https|, kind).None?
    ensures RepoAt(Https + Host + owner, |Https|).None?
  {
    HostPrefix(owner);
    SegmentOf(owner, "");
    assert owner + "" == owner;
  }

  /** An owner alone matches no tree or blob pattern. */
  lemma OwnerOnlyNoKind(owner: string, kind: string)
    requires '/' !in owner
    ensures FirstKind(Https + Host + owner, 0, kind).None?
  {
    var url := Https + Host + owner;
    OwnerOnlyNoHost(owner);
    HostOnce(owner);
    OwnerAtHost(owner, kind);
    NoHostNoMatch(url, |Https| + 1, kind);
    FirstKindAt(url, 0, |Https|, kind);
  }

  /** An owner alone matches no bare repository pattern. */
  lemma OwnerOnlyNoRepo(owner: string)
    requires '/' !in owner
    ensures FirstRepo(Https + Host + owner, 0).None?
  {
    var url := Https + Host + owner;
    OwnerOnlyNoHost(owner);
    HostOnce(owner);
    OwnerAtHost(owner, "tree");
    NoHostNoMatch(url, |Https| + 1, "tree");
    FirstRepoAt(url, 0, |Https|);
  }

  /** A URL that names only an owner matches none of the patterns, so the source is rejected. */
  lemma OwnerOnlyRejected(owner: string)
    requires '/' !in owner
    ensures ParseGitHubUrl(Https + Host + owner) == Ok(None)
    ensures ResolveSource(Https + Host + owner) == Err("Invalid GitHub URL: " + Https + Host + owner)
  {
    var url := Https + Host + owner;
    OwnerOnlyNoKind(owner, "tree");
    OwnerOnlyNoKind(owner, "blob");
    OwnerOnlyNoRepo(owner);
    ParseNoMatch(url);
    GitHubPrefixClassified(owner);
    assert ResolveSource(url) == Err("Invalid GitHub URL: " + url);
    assert "Invalid GitHub URL: " + url == "Invalid GitHub URL: " + Https + Host + owner;
  }

  lemma CapitalHostLower()
    ensures ToLower("https://GitHub.com/") == Https + Host
  {
    var s := "https://GitHub.com/";
    var low := ToLower(s);
    assert low[8] == 'g' && low[11] == 'h';
    forall i | 0 <= i < |s| && i != 8 && i != 11 ensures low[i] == s[i] { }
  }

  lemma CapitalHostNoMatch(rest: string)
    requires 'g' !in rest
    ensures forall j :: 0 <= j ==> !OccursAt("https://GitHub.com/" + rest, Host, j)
  {
    var url := "https://GitHub.com/" + rest;
    forall j | 0 <= j ensures !OccursAt(url, Host, j) {
      if j < |url| {
        if j < 19 { assert url[j] == "https://GitHub.com/"[j]; } else { assert url[j] == rest[j - 19]; }
      }
      FirstCharMismatch(url, Host, j);
    }
  }

  /**
   * The classification ignores letter case but the patterns do not:
   * `https://GitHub.com/...` is taken for GitHub and then rejected.
   */
  lemma CapitalisedHostRejected(rest: string)
    requires 'g' !in rest
    ensures ResolveSource("https://GitHub.com/" + rest) == Err("Invalid GitHub URL: https://GitHub.com/" + rest)
  {
    var url := "https://GitHub.com/" + rest;
    CapitalHostNoMatch(rest);
    NoHostNoMatch(url, 0, "tree");
    NoHostNoMatch(url, 0, "blob");
    CapitalHostClassified(rest);
    assert ParseGitHubUrl(url) == Ok(None);
    assert "Invalid GitHub URL: " + url == "Invalid GitHub URL: https://GitHub.com/" + rest;
  }

  lemma CapitalHostClassified(rest: string)
    ensures IsGitHubUrl("https://GitHub.com/" + rest)
  {
    var url := "https://GitHub.com/" + rest;
    CapitalHostLower();
    LowerConcat("https://GitHub.com/", rest);
    var low := ToLower(url);
    assert low == Https + Host + ToLower(rest);
    assert low[..8] == Https;
    assert low[8..] == Host + ToLower(rest);
    assert low[8..][..11] == Host;
  }

  // ---------------------------------------------------------------------
  // escapeRegex and the docsPath prefix
  // ---------------------------------------------------------------------

  /** The characters `escapeRegex` quotes: `. * + ? ^ $ { } ( ) | [ ] \`. */
  predicate IsRegexMeta(c: char) {
    c == '.' || c == '*' || c == '+' || c == '?' || c == '^' || c == '$' || c == '{' || c == '}'
    || c == '(' || c == ')' || c == '|' || c == '[' || c == ']' || c == '\\'
  }

  /** `value.replace(/[.*+?^${}()|[\]\\]/g, "\\$&")`. */
  function EscapeRegex(s: string): (r: string)
    ensures |r| >= |s|
  {
    if |s| == 0 then ""
    else (if IsRegexMeta(s[0]) then ['\\', s[0]] else [s[0]]) + EscapeRegex(s[1..])
  }

  /** Read an escaped pattern back: a backslash stands for the character after it. */
  function Unescape(s: string): string
    decreases |s|
  {
    if |s| == 0 then ""
    else if s[0] == '\\' && |s| >= 2 then [s[1]] + Unescape(s[2..])
    else [s[0]] + Unescape(s[1..])
  }

  /** Escaping loses nothing: reading the pattern back gives the original text. */
  lemma {:induction false} UnescapeEscape(s: string)
    ensures Unescape(EscapeRegex(s)) == s
  {
    if |s| > 0 {
      UnescapeEscape(s[1..]);
      var e := EscapeRegex(s);
      if IsRegexMeta(s[0]) {
        assert e[2..] == EscapeRegex(s[1..]);
      } else {
        assert e[1..] == EscapeRegex(s[1..]);
      }
    }
  }

  /** Every metacharacter in the output is quoted, and every other character passes unchanged. */
  lemma {:induction false} EscapeQuotesMeta(s: string)
    ensures var e := EscapeRegex(s);
      forall c :: c !in s && c != '\\' ==> c !in e
    ensures forall i :: 0 <= i < |s| && !IsRegexMeta(s[i]) ==> s[i] in EscapeRegex(s)
  {
    if |s| > 0 {
      EscapeQuotesMeta(s[1..]);
      var e := EscapeRegex(s);
      assert s == [s[0]] + s[1..];
      var head := if IsRegexMeta(s[0]) then ['\\', s[0]] else [s[0]];
      assert e == head + EscapeRegex(s[1..]);
      forall i | 0 <= i < |s| && !IsRegexMeta(s[i]) ensures s[i] in e {
        if i > 0 { assert s[i] == s[1..][i - 1]; }
      }
    }
  }

  /**
   * apps/web prepare-docs.ts: with a docsPath, the entry path loses that
   * prefix (the escaped pattern matches it literally) and one optional `/`.
   */
  function StripDocsPrefix(path: string, docsPath: string): (r: string)
    ensures EndsWith(path, r)
  {
    if docsPath == "" || !StartsWith(path, docsPath) then path
    else
      var rest := path[|docsPath|..];
      if |rest| > 0 && rest[0] == '/' then rest[1..] else rest
  }

  lemma StripDocsPrefixOfChild(docsPath: string, rel: string)
    requires docsPath != ""
    ensures StripDocsPrefix(docsPath + "/" + rel, docsPath) == rel
  {
    var path := docsPath + "/" + rel;
    assert path[..|docsPath|] == docsPath;
    assert path[|docsPath|..] == "/" + rel;
  }

  /** The prefix test has no segment boundary: `docs` also comes off `docsx/a.md`. */
  lemma StripDocsPrefixNoBoundary(docsPath: string, rest: string)
    requires docsPath != "" && (rest == "" || rest[0] != '/')
    ensures StripDocsPrefix(docsPath + rest, docsPath) == rest
  {
    var path := docsPath + rest;
    assert path[..|docsPath|] == docsPath;
    assert path[|docsPath|..] == rest;
  }
}
