/**
 * The site configuration and the links derived from it: `resolveNavItems`,
 * `createDefaultConfig` and `parseConfig` (apps/web/src/lib/gittydocs/config.ts),
 * the repository, edit, issues and site-name helpers of
 * apps/web/src/lib/docs/source.ts, whose generated documentation source is a
 * parameter here, and the footer accessors of
 * packages/web-runtime/src/gittydocs/components/docs/docs-footer.tsx.
 */
module Config {
  import opened Wrappers
  import opened Types

  // ---------------------------------------------------------------------------
  // config.ts
  // ---------------------------------------------------------------------------

  /** `site`: a parsed file may lack any of its fields. */
  datatype Site = Site(name: Option<string>, repo: Option<GitHubRepo>)

  /** `DocsConfig` as read from `gittydocs.jsonc`. */
  datatype DocsConfig = DocsConfig(site: Option<Site>, nav: Option<seq<NavItem>>, issues: Option<string>)

  /** `resolveNavItems`: a configured, non-empty nav wins; anything else gives the built nav. */
  function ResolveNavItems(config: Option<DocsConfig>, autoNav: seq<NavItem>): (r: seq<NavItem>)
    ensures config.Some? && config.value.nav.Some? && |config.value.nav.value| > 0 ==> r == config.value.nav.value
    ensures config.None? || config.value.nav.None? || config.value.nav.value == [] ==> r == autoNav
  {
    if config.Some? && config.value.nav.Some? && |config.value.nav.value| > 0 then config.value.nav.value
    else autoNav
  }

  /** `createDefaultConfig`: the site is named `owner/repo` and keeps the repository. */
  function CreateDefaultConfig(repo: GitHubRepo): (r: DocsConfig)
    ensures r.site == Some(Site(Some(repo.owner + "/" + repo.repo), Some(repo)))
    ensures r.nav.None? && r.issues.None?
  {
    DocsConfig(Some(Site(Some(repo.owner + "/" + repo.repo), Some(repo))), None, None)
  }

  /**
   * What the JSONC parser hands back. Its grammar is not part of this model:
   * an object is taken to be a configuration, and the other values matter
   * only through their truthiness and `typeof`.
   */
  datatype JsonValue =
    | JNull
    | JBool(b: bool)
    | JNumber(n: int)
    | JString(s: string)
    | JArray(length: nat)
    | JObject(config: DocsConfig)

  /** A parse that returned a value, or one that threw. */
  datatype ParseOutcome = Parsed(value: JsonValue) | Threw

  /** JavaScript truthiness of a parsed value. */
  predicate JsonTruthy(v: JsonValue) {
    match v
    case JNull => false
    case JBool(b) => b
    case JNumber(n) => n != 0
    case JString(s) => s != ""
    case JArray(_) => true
    case JObject(_) => true
  }

  /** `typeof v === "object"`: objects, arrays and `null`. */
  predicate IsObjectType(v: JsonValue) {
    v.JNull? || v.JArray? || v.JObject?
  }

  /**
   * `parseConfig`: `null` when the parser throws or gives a falsy or
   * non-object value; an array passes the `typeof` test and is returned as it is.
   */
  function ParseConfig(outcome: ParseOutcome): (r: Option<JsonValue>)
    ensures r.Some? <==> outcome.Parsed? && (outcome.value.JObject? || outcome.value.JArray?)
    ensures r.Some? ==> r.value == outcome.value
  {
    match outcome
    case Threw => None
    case Parsed(v) => if !JsonTruthy(v) || !IsObjectType(v) then None else Some(v)
  }

  /** The configuration read from a parse, when it was an object. */
  function ConfigOf(outcome: ParseOutcome): (r: Option<DocsConfig>)
    ensures r.Some? <==> outcome.Parsed? && outcome.value.JObject?
  {
    match ParseConfig(outcome)
    case Some(JObject(c)) => Some(c)
    case _ => None
  }

  // ---------------------------------------------------------------------------
  // source.ts
  // ---------------------------------------------------------------------------

  /** The generated documentation source: local, or GitHub with or without coordinates. */
  datatype DocsSource = LocalSource | GitHubSource(repo: Option<GitHubRepo>)

  /** The source's repository, when it is GitHub and has one. */
  function SourceRepo(source: DocsSource): Option<GitHubRepo> {
    if source.GitHubSource? then source.repo else None
  }

  /** The configured repository, when the configuration has a site with a repo. */
  function ConfigRepo(config: Option<DocsConfig>): Option<GitHubRepo> {
    if config.Some? && config.value.site.Some? then config.value.site.value.repo else None
  }

  function GitHubUrl(owner: string, repo: string): string {
    "https://github.com/" + owner + "/" + repo
  }

  /** `getRepoUrl`: the configured repository, else the source's, else none. */
  function RepoUrl(config: Option<DocsConfig>, source: DocsSource): (r: Option<string>)
    ensures ConfigRepo(config).Some? ==> r == Some(GitHubUrl(ConfigRepo(config).value.owner, ConfigRepo(config).value.repo))
    ensures ConfigRepo(config).None? && SourceRepo(source).Some? ==>
      r == Some(GitHubUrl(SourceRepo(source).value.owner, SourceRepo(source).value.repo))
    ensures r.None? <==> ConfigRepo(config).None? && SourceRepo(source).None?
  {
    match ConfigRepo(config)
    case Some(repo) => Some(GitHubUrl(repo.owner, repo.repo))
    case None =>
      match SourceRepo(source)
      case Some(repo) => Some(GitHubUrl(repo.owner, repo.repo))
      case None => None
  }

  /** `getEditUrl`: only a GitHub source with coordinates has one; a non-empty docsPath is a directory prefix. */
  function EditUrl(source: DocsSource, sourcePath: string): (r: Option<string>)
    ensures r.None? <==> SourceRepo(source).None?
  {
    match SourceRepo(source)
    case None => None
    case Some(repo) =>
      var prefix := if repo.docsPath != "" then repo.docsPath + "/" else "";
      Some(GitHubUrl(repo.owner, repo.repo) + "/edit/" + repo.ref + "/" + prefix + sourcePath)
  }

  /** `getIssuesUrl`: the configured issues link, else the source repository's issues page. */
  function IssuesUrl(config: Option<DocsConfig>, source: DocsSource): (r: Option<string>)
    ensures config.Some? && Truthy(config.value.issues) ==> r == config.value.issues
    ensures r.None? <==> !(config.Some? && Truthy(config.value.issues)) && SourceRepo(source).None?
  {
    if config.Some? && Truthy(config.value.issues) then config.value.issues
    else
      match SourceRepo(source)
      case Some(repo) => Some(GitHubUrl(repo.owner, repo.repo) + "/issues")
      case None => None
  }

  /** `getSiteName`: the configured name, else `owner/repo` of the source, else `gittydocs`. */
  function SiteName(config: Option<DocsConfig>, source: DocsSource): (r: string)
    ensures r != ""
    ensures config.Some? && config.value.site.Some? && Truthy(config.value.site.value.name) ==>
      r == config.value.site.value.name.value
    ensures !(config.Some? && config.value.site.Some? && Truthy(config.value.site.value.name)) ==>
      r == (if SourceRepo(source).Some? then SourceRepo(source).value.owner + "/" + SourceRepo(source).value.repo
            else "gittydocs")
  {
    if config.Some? && config.value.site.Some? && Truthy(config.value.site.value.name) then
      config.value.site.value.name.value
    else
      match SourceRepo(source)
      case Some(repo) => repo.owner + "/" + repo.repo
      case None => "gittydocs"
  }

  /**
   * Without a configured repository or issues link, the links agree: the edit
   * and issues URLs both extend the repository URL of the source.
   */
  lemma SourceLinksAgree(config: Option<DocsConfig>, source: DocsSource, sourcePath: string)
    requires ConfigRepo(config).None? && !(config.Some? && Truthy(config.value.issues))
    requires SourceRepo(source).Some?
    ensures var base := RepoUrl(config, source).value;
      IssuesUrl(config, source) == Some(base + "/issues")
      && EditUrl(source, sourcePath).Some?
      && StartsWithText(EditUrl(source, sourcePath).value, base + "/edit/" + SourceRepo(source).value.ref + "/")
  {
    var repo := SourceRepo(source).value;
    var base := GitHubUrl(repo.owner, repo.repo);
    var prefix := if repo.docsPath != "" then repo.docsPath + "/" else "";
    var head := base + "/edit/" + repo.ref + "/";
    assert EditUrl(source, sourcePath).value == head + (prefix + sourcePath);
  }

  /** The docsPath prefix and its `/` appear exactly when docsPath is non-empty. */
  lemma EditUrlPrefix(owner: string, repo: string, ref: string, docsPath: string, sourcePath: string)
    ensures var src := GitHubSource(Some(GitHubRepo(owner, repo, ref, docsPath)));
      var head := GitHubUrl(owner, repo) + "/edit/" + ref + "/";
      EditUrl(src, sourcePath) == Some(head + (if docsPath == "" then sourcePath else docsPath + "/" + sourcePath))
  {
    var head := GitHubUrl(owner, repo) + "/edit/" + ref + "/";
    if docsPath == "" {
      assert head + "" + sourcePath == head + sourcePath;
    } else {
      assert head + (docsPath + "/") + sourcePath == head + (docsPath + "/" + sourcePath);
    }
  }

  /** `a.startsWith(p)`. */
  predicate StartsWithText(a: string, p: string) {
    |p| <= |a| && a[..|p|] == p
  }

  // ---------------------------------------------------------------------------
  // docs-footer.tsx (the web runtime's configuration shape)
  // ---------------------------------------------------------------------------

  /** The runtime's `site.repo`: `name` instead of `repo`, and optional `ref` and `docsPath`. */
  datatype FooterRepo = FooterRepo(owner: string, name: string, ref: Option<string>, docsPath: Option<string>)

  /** The parts of the runtime configuration the footer reads. */
  datatype FooterConfig = FooterConfig(
    siteName: Option<string>,
    repo: Option<FooterRepo>,
    github: Option<string>,
    issues: Option<string>,
    discord: Option<string>)

  function FooterRepoOf(config: Option<FooterConfig>): Option<FooterRepo> {
    if config.Some? then config.value.repo else None
  }

  /** `editUrl`: needs a source path and a repository; `ref` defaults to `main` and `docsPath` to `docs`. */
  function FooterEditUrl(config: Option<FooterConfig>, sourcePath: Option<string>): (r: Option<string>)
    ensures r.None? <==> !Truthy(sourcePath) || FooterRepoOf(config).None?
    ensures r.Some? ==>
      var repo := FooterRepoOf(config).value;
      r.value == GitHubUrl(repo.owner, repo.name) + "/edit/"
        + (if Truthy(repo.ref) then repo.ref.value else "main") + "/"
        + (if Truthy(repo.docsPath) then repo.docsPath.value else "docs") + "/" + sourcePath.value
  {
    if !Truthy(sourcePath) then None
    else
      match FooterRepoOf(config)
      case None => None
      case Some(repo) =>
        var ref := if Truthy(repo.ref) then repo.ref.value else "main";
        var docsPath := if Truthy(repo.docsPath) then repo.docsPath.value else "docs";
        Some(GitHubUrl(repo.owner, repo.name) + "/edit/" + ref + "/" + docsPath + "/" + sourcePath.value)
  }

  /** `githubUrl`: the configured link, else the repository page, else none. */
  function FooterGithubUrl(config: Option<FooterConfig>): (r: Option<string>)
    ensures config.Some? && Truthy(config.value.github) ==> r == config.value.github
    ensures r.None? <==> !(config.Some? && Truthy(config.value.github)) && FooterRepoOf(config).None?
  {
    if config.Some? && Truthy(config.value.github) then config.value.github
    else
      match FooterRepoOf(config)
      case Some(repo) => Some(GitHubUrl(repo.owner, repo.name))
      case None => None
  }

  /** `issuesUrl`: the configured link, else the repository's issues page, else none. */
  function FooterIssuesUrl(config: Option<FooterConfig>): (r: Option<string>)
    ensures config.Some? && Truthy(config.value.issues) ==> r == config.value.issues
    ensures r.None? <==> !(config.Some? && Truthy(config.value.issues)) && FooterRepoOf(config).None?
  {
    if config.Some? && Truthy(config.value.issues) then config.value.issues
    else
      match FooterRepoOf(config)
      case Some(repo) => Some(GitHubUrl(repo.owner, repo.name) + "/issues")
      case None => None
  }

  /** `discordUrl`: the configured link when it is non-empty. */
  function FooterDiscordUrl(config: Option<FooterConfig>): (r: Option<string>)
    ensures r.Some? <==> config.Some? && Truthy(config.value.discord)
    ensures r.Some? ==> r == config.value.discord
  {
    if config.Some? && Truthy(config.value.discord) then config.value.discord else None
  }

  /** The footer's site name: the configured one, else `Documentation`. */
  function FooterSiteName(config: Option<FooterConfig>): (r: string)
    ensures r != ""
    ensures config.Some? && Truthy(config.value.siteName) ==> r == config.value.siteName.value
    ensures !(config.Some? && Truthy(config.value.siteName)) ==> r == "Documentation"
  {
    if config.Some? && Truthy(config.value.siteName) then config.value.siteName.value else "Documentation"
  }

  /** With a repository and no configured links, the issues page sits under the GitHub link. */
  lemma FooterLinksAgree(config: FooterConfig)
    requires config.repo.Some? && !Truthy(config.github) && !Truthy(config.issues)
    ensures FooterIssuesUrl(Some(config)) == Some(FooterGithubUrl(Some(config)).value + "/issues")
  {
  }
}
