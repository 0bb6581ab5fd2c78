# gittydocs in Dafny

gittydocs turns a folder of Markdown files, either local or in a GitHub
repository, into a documentation site. This project models the logic at the
core of that system and proves properties of it:

- **Preparing the docs** (`prepare-docs.ts`, in both its runtime and its web-app
  variant):
  - resolving the source from a local path or a GitHub URL;
  - reading front matter;
  - the file tree and its navigation;
  - route paths;
  - the `llms.txt` index and its per-page files;
  - the theme file;
  - the source map.
- **The runtime on the page:**
  - the search index and its snippets;
  - heading extraction with code fences;
  - the store of pages;
  - the nav sidebar with its accordions;
  - the table of contents tracker;
  - the search dialog;
  - the footer and source links;
  - the base path;
  - the FlexSearch hook's highlights.
- **The CLI:**
  - the `deploy` command, with its provider choice, workflows, overwrite prompts and closing note;
  - the filter of the recursive directory copy.

The modules follow the source's concerns:

| module | what it holds |
|---|---|
| `Wrappers`, `Types` | `Option`, and the shared records |
| `Text` | the JavaScript string operations the code relies on, such as `trim`, `split`, `indexOf` and `toLowerCase` |
| `BasePath`, `Config` | the base path, and the configuration and link helpers |
| `Routes`, `NavTree` | route paths, and the file tree with its nav |
| `Headings`, `MarkdownStrip`, `Search` | heading extraction, Markdown stripping, and the search index |
| `Frontmatter`, `GitHubSource`, `Llms` | front matter, source resolution, and the `llms.txt` output |
| `Velite`, `DocsData`, `Store` | the content transform, the page mapping, and the store |
| `DocsNav`, `Toc`, `SearchDialog`, `FlexSearch` | the UI state machines |
| `Deploy`, `CopyFilter` | the CLI |

Code that is a pure function of its inputs is modelled as functions and lemmas.

State that the source updates in place is modelled as classes, with `modifies` clauses on their methods:

- `Search.SearchIndex`;
- `Store.DocsStore`;
- `Llms.LlmsMaps`;
- `DocsNav.Accordions`;
- `Toc.Tracker`;
- `SearchDialog.Dialog`;
- `FlexSearch.FlexIndex`.

Most loops in the source are methods with loop invariants, each proved against a specification function. Examples:

- `Headings.ScanLines`;
- `Llms.CollectDocsPages`;
- `FlexSearch.MatchIndexes`;
- `Deploy.WriteAll`;
- `CopyFilter.ShouldIgnoreRelPath`.

A few loops are modelled by recursion instead; they are listed under "Left out".

Regular expressions are modelled as the string functions they compute. The documentation comment of each function says how the pattern's backtracking was resolved.

Where the same logic is copied into several source files, it is modelled once. The copies are:

- `toRoutePath`, in six files, differing only in style;
- `parseGitHubUrl`, in both prepare scripts;
- the tree and nav builders, in three files;
- the search index, in two files.

A parameter selects the variant where the copies differ. For example, `Routes.RouteStyle` picks how the route is prepared.

## Model

| member | source | states |
|---|---|---|
| BasePath.NormalizeBase | packages/web-runtime/src/utils/base-path.ts:19-22 | the normalised base always ends in `/`: it is `/` for a missing or empty base, the base itself when it already ends in `/`, and the base plus `/` otherwise |
| BasePath.WithBasePath | packages/web-runtime/src/utils/base-path.ts:1-7 | under the root base, or when the route already starts with the base, the route is unchanged; otherwise it is the base without its trailing slash followed by the route made rooted |
| BasePath.StripBasePath | packages/web-runtime/src/utils/base-path.ts:9-17 | a path under a non-root base keeps what follows the base, with a leading slash; any other path is unchanged |
| BasePath.StripWithBase | packages/web-runtime/src/utils/base-path.ts:1-17 | stripping the base from a route with the base added gives the route back, rooted, unless the route already began with the base |
| BasePath.WithStripBase | packages/web-runtime/src/utils/base-path.ts:1-17 | adding the base back to a stripped path gives the path back, when the remainder does not itself start with the base |
| BasePath.WithBasePathIdempotent | packages/web-runtime/src/utils/base-path.ts:1-7 | adding the base twice is adding it once |
| BasePath.ResolveAssetHref | packages/web-runtime/src/pages/+Layout.tsx:50-54 | no or empty asset gives none; absolute, scheme-relative and `data:` URLs are kept as they are; anything else is served under the base |
| BasePath.BaseGainsSlash | packages/web-runtime/src/utils/base-path.ts:19-22 | a base without a trailing slash is normalised by adding exactly one |
| BasePath.AssetUnderBase | packages/web-runtime/src/pages/+Layout.tsx:50-54 | a relative asset under a non-root base `b` resolves to `b/asset` (e.g. `/docs/favicon.ico`) |
| Config.ResolveNavItems | apps/web/src/lib/gittydocs/config.ts:23-28 | a configured non-empty nav wins; otherwise the built nav is used |
| Config.CreateDefaultConfig | apps/web/src/lib/gittydocs/config.ts:14-21 | the default configuration names the site `owner/repo` and keeps the repository |
| Config.ParseConfig | apps/web/src/lib/gittydocs/config.ts:4-12 | a value is returned exactly when the parser produced an object or an array (the `typeof` test lets arrays through), and it is the parsed value |
| Config.ConfigOf | apps/web/src/lib/gittydocs/config.ts:4-12 | a configuration is read exactly when the parse produced an object |
| Config.RepoUrl | apps/web/src/lib/docs/source.ts:4-12 | the configured repository's page wins over the source's; none without either |
| Config.EditUrl | apps/web/src/lib/docs/source.ts:14-19 | there is an edit link exactly when the source is GitHub with coordinates |
| Config.IssuesUrl | apps/web/src/lib/docs/source.ts:21-27 | a configured non-empty issues link wins; there is none exactly when no link is configured and the source has no repository |
| Config.SiteName | apps/web/src/lib/docs/source.ts:29-35 | a configured non-empty site name wins, then `owner/repo` of the source's repository, then `gittydocs`; never empty |
| Config.SourceLinksAgree | apps/web/src/lib/docs/source.ts:4-27 | without configured repository or issues link, the edit and issues URLs both extend the repository URL |
| Config.EditUrlPrefix | apps/web/src/lib/docs/source.ts:14-19 | the edit URL is the repository's `edit/<ref>/` page followed by the source path, with the docs path and a slash in between exactly when the docs path is non-empty |
| Config.FooterEditUrl | packages/web-runtime/src/gittydocs/components/docs/docs-footer.tsx:11-19 | there is an edit link exactly when a source path and a repository are present; it is the repository's `edit/<ref>/<docsPath>/<sourcePath>` page, with `ref` defaulting to `main` and `docsPath` to `docs` |
| Config.FooterGithubUrl | packages/web-runtime/src/gittydocs/components/docs/docs-footer.tsx:21-28 | a configured non-empty GitHub link wins; there is none exactly when no link is configured and there is no repository |
| Config.FooterIssuesUrl | packages/web-runtime/src/gittydocs/components/docs/docs-footer.tsx:30-37 | a configured non-empty issues link wins; there is none exactly when no link is configured and there is no repository |
| Config.FooterDiscordUrl | packages/web-runtime/src/gittydocs/components/docs/docs-footer.tsx:39-41 | the Discord link exactly when one is configured and non-empty |
| Config.FooterSiteName | packages/web-runtime/src/gittydocs/components/docs/docs-footer.tsx:152 | the configured site name when non-empty, else `Documentation`; never empty |
| Config.FooterLinksAgree | packages/web-runtime/src/gittydocs/components/docs/docs-footer.tsx:21-37 | with a repository and no configured links, the issues page lies under the GitHub link |
| CopyFilter.NormalizeRel | packages/cli/src/cli/lib/fs.ts:99-101 | the result has no backslash, no leading slash, and is no longer than the input |
| CopyFilter.NormalizeRelFixed | packages/cli/src/cli/lib/fs.ts:99-101 | a path with no backslash and no leading slash is its own normal form |
| CopyFilter.NormalizeRelIdempotent | packages/cli/src/cli/lib/fs.ts:99-101 | normalising twice is normalising once |
| CopyFilter.NormalizeRelExample | packages/cli/src/cli/lib/fs.ts:99-101 | `\dist\a` normalises to `dist/a` |
| CopyFilter.ShouldIgnoreRelPath | packages/cli/src/cli/lib/fs.ts:91-97 | the loop answers true exactly when some prefix equals the path or is a non-empty directory the path lies under |
| CopyFilter.SegmentBoundary | packages/cli/src/cli/lib/fs.ts:91-97 | prefixes match whole segments: `dist` covers `dist` and `dist/client/index.html`, not `dist-ssr` or `distx` |
| CopyFilter.EmptyPrefixCoversOnlyEmpty | packages/cli/src/cli/lib/fs.ts:91-97 | an empty prefix ignores only the empty path |
| CopyFilter.IgnoredBelow | packages/cli/src/cli/lib/fs.ts:66-82 | everything below an ignored path is ignored too, so skipping a directory loses nothing the filter would keep |
| CopyFilter.NormalizePrefixes | packages/cli/src/cli/lib/fs.ts:35-52 | the caller's prefixes are each normalised once, none when absent |
| CopyFilter.PrefixesNormalisedOnce | packages/cli/src/cli/lib/fs.ts:49 | the prefixes the walk sees are already in normal form |
| CopyFilter.EntryAction | packages/cli/src/cli/lib/fs.ts:66-88 | an entry is skipped exactly when its name is ignored or its normalised relative path is covered; otherwise directories are recursed into and files copied |
| CopyFilter.DecideEntry | packages/cli/src/cli/lib/fs.ts:66-88 | the per-entry steps, with the prefix loop, agree with `EntryAction` |
| Deploy.IndexOf | packages/cli/src/cli/commands/deploy.ts:107-114 | the position of a member lies inside the list and holds it |
| Deploy.Pick | packages/cli/src/cli/commands/deploy.ts:107-114 | the picked list is no longer than the order and holds only chosen members of it |
| Deploy.PickMembers | packages/cli/src/cli/commands/deploy.ts:107-114 | an element is picked exactly when it is in the order and chosen |
| Deploy.PickInOrder | packages/cli/src/cli/commands/deploy.ts:107-114 | picking from a list without repeats repeats nothing and keeps the list's order |
| Deploy.PickFour | packages/cli/src/cli/commands/deploy.ts:107-114 | picking from four elements takes each one in turn when it is chosen |
| Deploy.CollectProvidersFromFlags | packages/cli/src/cli/commands/deploy.ts:107-114 | the pushes build the flagged providers picked from the order ghpages, cfpages, vercel, netlify |
| Deploy.FlaggedMembers | packages/cli/src/cli/commands/deploy.ts:107-114 | each provider is in the flagged set exactly when its flag is set |
| Deploy.FlagProviders | packages/cli/src/cli/commands/deploy.ts:107-114 | the providers from the flags are exactly the flagged ones, without repeats, in the fixed order |
| Deploy.ChosenProviders | packages/cli/src/cli/commands/deploy.ts:36-37 | with a flag set the flags decide; with none the prompt's answer is used |
| Deploy.WorkflowFileName | packages/cli/src/cli/commands/deploy.ts:45-50 | one provider writes `deploy-gittydocs.yml`; several write `deploy-gittydocs-<provider>.yml` |
| Deploy.WorkflowFileNameInjective | packages/cli/src/cli/commands/deploy.ts:45-50 | with several providers, different providers get different files |
| Deploy.WorkflowShape | packages/cli/src/cli/commands/deploy.ts:196-281 | every workflow opens with its name line and contains the docs build step |
| Deploy.WorkflowsBuildDocs | packages/cli/src/cli/commands/deploy.ts:181-281 | each known provider's workflow builds the docs directory with the published CLI; any other name renders to the empty string |
| Deploy.RenderWorkflow | packages/cli/src/cli/commands/deploy.ts:181-194 | the provider's workflow for a known provider and `""` for any other; `Deploy.WorkflowsBuildDocs` states it |
| Deploy.WritesFromProviders | packages/cli/src/cli/commands/deploy.ts:46-65 | at most one file per provider is written, and each is some provider's file under its name and with its workflow |
| Deploy.DeclineSkipsOnlyThatProvider | packages/cli/src/cli/commands/deploy.ts:46-65 | a provider's workflow is written exactly when its file did not exist or the user agreed to overwrite it |
| Deploy.WriteAll | packages/cli/src/cli/commands/deploy.ts:46-65 | the loop writes exactly the files the overwrite rule gives, in provider order |
| Deploy.RunDeploy | packages/cli/src/cli/commands/deploy.ts:36-67 | the command writes the chosen providers' workflows and closes with the note for exactly those providers |
| Deploy.FlaggedWritesSkipOnlyDeclined | packages/cli/src/cli/commands/deploy.ts:36-65 | for providers from the flags, declining skips that provider only |
| Deploy.WhatNextLines | packages/cli/src/cli/commands/deploy.ts:72-105 | the pushes give the commit lines, then each chosen provider's section in the fixed order |
| Deploy.WhatNextSections | packages/cli/src/cli/commands/deploy.ts:72-105 | a section appears exactly when its provider was chosen, once, in the order GitHub Pages, Cloudflare Pages, Netlify, Vercel |
| Deploy.RenderWhatNext | packages/cli/src/cli/commands/deploy.ts:72-105 | the commit instructions, then a section per chosen provider in the fixed order; `Deploy.WhatNextSections` and `Deploy.WhatNextLines` state it |
| Deploy.WhatNextLead | packages/cli/src/cli/commands/deploy.ts:72-78 | the note always opens with `Commit and push:` |
| Deploy.DocsDirRel | packages/cli/src/cli/commands/deploy.ts:142 | the relative directory is never empty: `.` for the root, otherwise the same length with every backslash turned into a slash |
| Deploy.FirstExisting | packages/cli/src/cli/commands/deploy.ts:139-146 | none exactly when no candidate exists; otherwise the first existing candidate, with its directory made relative |
| Deploy.ConfigLookupOrder | packages/cli/src/cli/commands/deploy.ts:131-171 | a configuration under `docs/` wins over one at the root, and one at the root has `.` as its directory |
| Deploy.FindLocalConfig | packages/cli/src/cli/commands/deploy.ts:131-153 | the first existing fixed candidate, else the first one level deep, else none; `Deploy.ConfigLookupOrder` states the order |
| GitHubSource.PercentDecode | packages/web-runtime/scripts/prepare-docs.ts:152 | a successful decode is never longer than its input |
| GitHubSource.DecodePlain | packages/web-runtime/scripts/prepare-docs.ts:152 | text without `%` decodes to itself |
| GitHubSource.PercentEncode | packages/web-runtime/scripts/prepare-docs.ts:152 | the encoding is the decoder's independent inverse: three characters per character |
| GitHubSource.DecodeEncode | packages/web-runtime/scripts/prepare-docs.ts:152 | decoding undoes percent-encoding, for every ASCII text |
| GitHubSource.DecodeTrailingPercent | packages/web-runtime/scripts/prepare-docs.ts:152 | a `%` with nothing after it makes `decodeURIComponent` throw |
| GitHubSource.SegmentRun | packages/web-runtime/scripts/prepare-docs.ts:146 | `[^/]+` reads the longest run without `/`: it ends at a slash or at the end |
| GitHubSource.LineRun | packages/web-runtime/scripts/prepare-docs.ts:146 | `.*` reads the longest run without a line terminator |
| GitHubSource.DirectoryPart | packages/web-runtime/scripts/prepare-docs.ts:158-160 | the blob form's docsPath is the text before the last `/` when that slash is past position 0, else empty |
| GitHubSource.ResolveSource | packages/web-runtime/scripts/prepare-docs.ts:131-143 | a non-GitHub input is a local source verbatim; a GitHub URL that does not parse is rejected with `Invalid GitHub URL: <input>`; a GitHub source carries the parsed repository |
| GitHubSource.GitHubPrefixClassified | packages/web-runtime/scripts/prepare-docs.ts:132 | every `https://github.com/...` input is classified as GitHub |
| GitHubSource.IsGitHubUrl | packages/web-runtime/scripts/prepare-docs.ts:132 | the case-insensitive `http(s)://(www.)github.com/` test; `GitHubSource.GitHubPrefixClassified` and `CapitalHostClassified` state it |
| GitHubSource.TreeUrl | packages/web-runtime/scripts/prepare-docs.ts:146-154 | a `/tree/` URL gives its owner, repo and single-segment ref, and the decoded rest as docsPath |
| GitHubSource.BlobUrl | packages/web-runtime/scripts/prepare-docs.ts:156-167 | a `/blob/` URL (with no second host in its path) gives its owner, repo and ref, and the directory of the decoded file path as docsPath |
| GitHubSource.RepoUrl | packages/web-runtime/scripts/prepare-docs.ts:169-177 | a bare `owner/repo` URL gives ref `main` and an empty docsPath |
| GitHubSource.ParseGitHubUrl | packages/web-runtime/scripts/prepare-docs.ts:145-180 | the tree form, then the blob form, then the bare repository, else none; a malformed escape throws; `GitHubSource.TreeUrl`, `BlobUrl`, `RepoUrl` and `OwnerOnlyRejected` state each case |
| GitHubSource.OwnerOnlyRejected | packages/web-runtime/scripts/prepare-docs.ts:131-180 | a URL naming only an owner matches no pattern, so resolving it fails with `Invalid GitHub URL` |
| GitHubSource.CapitalHostClassified | packages/web-runtime/scripts/prepare-docs.ts:132 | the classification ignores case: `https://GitHub.com/...` counts as GitHub |
| GitHubSource.CapitalisedHostRejected | packages/web-runtime/scripts/prepare-docs.ts:131-180 | the patterns do not ignore case, so a `https://GitHub.com/...` URL is classified as GitHub and then rejected |
| GitHubSource.EscapeRegex | packages/web-runtime/scripts/prepare-docs.ts:913-915 | escaping never shortens the text |
| GitHubSource.UnescapeEscape | packages/web-runtime/scripts/prepare-docs.ts:913-915 | escaping loses nothing: reading the escaped pattern back gives the original text |
| GitHubSource.EscapeQuotesMeta | packages/web-runtime/scripts/prepare-docs.ts:913-915 | escaping adds no character but the backslash, and every non-metacharacter passes through |
| GitHubSource.StripDocsPrefix | apps/web/scripts/prepare-docs.ts:139-142 | the entry path loses at most a prefix: the result is a suffix of it |
| GitHubSource.StripDocsPrefixOfChild | apps/web/scripts/prepare-docs.ts:139-142 | an entry `docsPath/rel` becomes `rel` |
| GitHubSource.StripDocsPrefixNoBoundary | apps/web/scripts/prepare-docs.ts:139-142 | the prefix test has no segment boundary: `docs` also comes off `docsx/a.md` |
| Headings.KeepSlugSource | apps/web/src/gittydocs/contexts/docs.context.tsx:189 | only word characters, whitespace and `-` remain, the text never grows, and lowercase input stays lowercase |
| Headings.HyphenateSpaces | apps/web/src/gittydocs/contexts/docs.context.tsx:190 | no whitespace remains, and text of slug characters and whitespace becomes slug characters only |
| Headings.CollapseHyphens | apps/web/src/gittydocs/contexts/docs.context.tsx:191 | no two hyphens in a row remain; slug characters stay slug characters; a leading hyphen stays exactly when there was one |
| Headings.SlugifyShape | apps/web/src/gittydocs/contexts/docs.context.tsx:186-193 | every slug holds only `[a-z0-9_-]` and never two hyphens in a row |
| Headings.Slugify | apps/web/src/gittydocs/contexts/docs.context.tsx:186-193 | lowercase, keep word characters, whitespace and `-`, turn whitespace runs into one `-`, collapse `-` runs and trim; the same definition serves the copy in apps/web/src/lib/docs/docs-data.ts; its alphabet and the absence of `--` are `Headings.SlugifyShape` |
| Headings.NoSpaceTrims | apps/web/src/gittydocs/contexts/docs.context.tsx:192 | the final `trim()` changes nothing once no whitespace is left |
| Headings.FenceMarkerShape | apps/web/src/gittydocs/contexts/docs.context.tsx:155 | a fence marker is the whole run of three or more backticks or tildes after the leading whitespace; with none, both runs there are shorter than three |
| Headings.HeadingLineShape | apps/web/src/gittydocs/contexts/docs.context.tsx:175-180 | a heading's level is the number of leading `#` (1 to 6), followed by whitespace, with trimmed text and the slug of that text; seven `#` or a trailing `\r` never match |
| Headings.FenceRule | apps/web/src/gittydocs/contexts/docs.context.tsx:155-173 | inside a fence no line is a heading and only a marker of the same character and at least the same length closes it; outside, a marker opens a fence |
| Headings.UnclosedFenceHidesAll | apps/web/src/gittydocs/contexts/docs.context.tsx:154-181 | a fence that never closes hides every later heading |
| Headings.RunFromLines | apps/web/src/gittydocs/contexts/docs.context.tsx:154-181 | every reported heading is the heading of one of the lines |
| Headings.ScanLine | apps/web/src/gittydocs/components/docs/doc-content.tsx:110-142 | one iteration of the loop keeps the three fence variables consistent and moves them as the fence rule says, contributing that line's heading |
| Headings.ExtractHeadings | apps/web/src/gittydocs/contexts/docs.context.tsx:147-184 | the loop reports the headings of the fence-aware scan of the lines split at `\n` |
| Headings.ScanLines | apps/web/src/gittydocs/components/docs/doc-content.tsx:103-145 | the loop over the lines reports the fence-aware scan |
| Headings.ExtractHeadingsPlain | apps/web/src/lib/docs/docs-data.ts:42-56 | the fence-blind loop reports the heading of every line |
| Headings.PlainAgreesWithoutFences | apps/web/src/lib/docs/docs-data.ts:42-56 | on lines without fence markers the fence-blind and fence-aware extractors agree |
| Headings.FencedHeadingDiffers | apps/web/src/lib/docs/docs-data.ts:42-56 | a heading between two ``` lines is hidden by the fence-aware scan but reported by the fence-blind one |
| Headings.DocSlug | apps/web/src/gittydocs/components/docs/doc-content.tsx:23 | the root document answers to `/`, any other to `/` followed by its `slugAsParams` |
| Headings.FindDocFirst | apps/web/src/gittydocs/components/docs/doc-content.tsx:21-26 | no document is found exactly when none answers to the slug; otherwise the first one that answers is |
| Headings.HasHeadingsIff | apps/web/src/gittydocs/components/docs/doc-content.tsx:35-46 | `hasHeadings` holds exactly when the headings are non-empty; without a document or raw Markdown both are empty |
| DocsData.RawOf | apps/web/src/lib/docs/docs-data.ts:27 | the raw Markdown when it is non-empty, else the empty text |
| DocsData.TitleOf | apps/web/src/lib/docs/docs-data.ts:21 | the title when non-empty, else `Untitled`; never empty |
| DocsData.SourcePathOf | apps/web/src/lib/docs/docs-data.ts:15 | a non-empty mapped source path wins, else the slug plus `.mdx` |
| DocsData.DataPage | apps/web/src/lib/docs/docs-data.ts:13-29 | the page has a rooted route for the document's slug, its mapped source path, its title and raw text, and the fence-blind headings of that text |
| DocsData.ContextPage | apps/web/src/gittydocs/contexts/docs.context.tsx:315-332 | the page has a rooted route for the slug, the slug as source path, its title and raw text, and the fence-aware headings |
| DocsData.DocsPages | apps/web/src/lib/docs/docs-data.ts:13-29 | one page per document, in order |
| DocsData.MappingsAgree | apps/web/src/lib/docs/docs-data.ts:13-29 | the two mappings give the same route, title and raw text, and the same headings when the text has no fence marker line |
| DocsData.UnmappedSource | apps/web/src/lib/docs/docs-data.ts:15 | a document whose route has no source mapping gets its slug plus `.mdx` |
| DocsNav.ActiveForItself | packages/web-runtime/src/gittydocs/components/docs/docs-nav.tsx:198-203 | every path is active for itself |
| DocsNav.RootActiveOnlyOnRoot | packages/web-runtime/src/gittydocs/components/docs/docs-nav.tsx:198-203 | the root link is active exactly on the root |
| DocsNav.IsActive | packages/web-runtime/src/gittydocs/components/docs/docs-nav.tsx:198-203 | `/` is active only on `/`, any other path on every route starting with it; `DocsNav.RootActiveOnlyOnRoot`, `ActiveForItself` and `PrefixWithoutBoundary` state it |
| DocsNav.PrefixWithoutBoundary | apps/web/src/components/docs/docs-nav.tsx:71-76 | the prefix test has no segment boundary: `/deploy` is active on `/deployment`, not the other way round |
| DocsNav.CurrentPath | packages/web-runtime/src/gittydocs/components/docs/docs-nav.tsx:21 | the URL's path, or `/` without one, with the base stripped |
| DocsNav.DropLlms | packages/web-runtime/src/gittydocs/components/docs/docs-nav.tsx:207 | an item survives the filter exactly when it was there and is not the `/llms.txt` link |
| DocsNav.CleanChildren | packages/web-runtime/src/gittydocs/components/docs/docs-nav.tsx:208-212 | a leaf is unchanged; a group keeps everything but loses its `/llms.txt` children |
| DocsNav.RemoveLlmsItems | packages/web-runtime/src/gittydocs/components/docs/docs-nav.tsx:205-214 | the removal never adds items |
| DocsNav.RemoveLlmsMembers | packages/web-runtime/src/gittydocs/components/docs/docs-nav.tsx:205-214 | an item is in the result exactly when it is the cleaned form of an input item that is not the llms link and that is a leaf or keeps a child |
| DocsNav.RemoveLlmsClean | packages/web-runtime/src/gittydocs/components/docs/docs-nav.tsx:205-214 | afterwards no item and no direct child links to `/llms.txt`, and no group is empty |
| DocsNav.RemoveLlmsKeepsLeaves | packages/web-runtime/src/gittydocs/components/docs/docs-nav.tsx:205-214 | a leaf that is not the llms link survives unchanged |
| DocsNav.RemoveLlmsKeepsOrder | packages/web-runtime/src/gittydocs/components/docs/docs-nav.tsx:205-214 | the survivors keep their relative order |
| DocsNav.InitialOpenLabels | packages/web-runtime/src/gittydocs/components/docs/docs-nav.tsx:33-47 | on mount a label is open exactly when one of its items is an accordion with an active child |
| DocsNav.InitialOpen | packages/web-runtime/src/gittydocs/components/docs/docs-nav.tsx:33-47 | the open flags built on mount, one per accordion with an active child; `DocsNav.InitialOpenLabels` states it |
| DocsNav.SomeChildActive | packages/web-runtime/src/gittydocs/components/docs/docs-nav.tsx:38-40 | the scan finds an active child exactly when one exists |
| DocsNav.Accordions.constructor | packages/web-runtime/src/gittydocs/components/docs/docs-nav.tsx:25-27 | no accordion starts open |
| DocsNav.Accordions.Mount | packages/web-runtime/src/gittydocs/components/docs/docs-nav.tsx:33-47 | the open flags become exactly those of the groups that hold the active page |
| DocsNav.Accordions.Toggle | packages/web-runtime/src/gittydocs/components/docs/docs-nav.tsx:29-31 | toggling flips that label's flag, with a missing flag counting as closed, and leaves every other label alone |
| Toc.ApplyEntriesUntouched | packages/web-runtime/src/gittydocs/components/docs/table-of-contents.tsx:31-37 | an id with no entry in the batch keeps its visibility |
| Toc.ApplyEntriesLastWins | packages/web-runtime/src/gittydocs/components/docs/table-of-contents.tsx:31-37 | the last entry for an id decides: the id is visible afterwards exactly when that entry intersects |
| Toc.ApplyEntries | packages/web-runtime/src/gittydocs/components/docs/table-of-contents.tsx:31-37 | the visible set after a batch of entries applied in order; `Toc.ApplyEntriesLastWins` and `Toc.ApplyEntriesUntouched` state it |
| Toc.FirstVisibleIsFirst | packages/web-runtime/src/gittydocs/components/docs/table-of-contents.tsx:43 | the heading found is the first visible one in document order; none is found exactly when none is visible |
| Toc.ActiveHeadingRule | packages/web-runtime/src/gittydocs/components/docs/table-of-contents.tsx:87-90 | the active heading is the first one with the active slug; without one it is the first heading; only without headings is there none |
| Toc.ActiveHeadingOf | packages/web-runtime/src/gittydocs/components/docs/table-of-contents.tsx:87-90 | the heading with the active slug, else the first heading, else none; `Toc.ActiveHeadingRule` states it |
| Toc.Tracker.constructor | packages/web-runtime/src/gittydocs/components/docs/table-of-contents.tsx:18-27 | nothing is visible or active at the start and the mobile panel is closed |
| Toc.Tracker.ObserveBatch | packages/web-runtime/src/gittydocs/components/docs/table-of-contents.tsx:22-57 | without headings nothing changes; otherwise the batch updates the visible set, the first visible heading becomes active and remembered, and with nothing visible the remembered heading stays active |
| Toc.Tracker.Click | packages/web-runtime/src/gittydocs/components/docs/table-of-contents.tsx:92-108 | when the heading's element exists, its fragment is pushed, it becomes active and the mobile panel closes if asked; otherwise nothing changes |
| Toc.Tracker.ToggleMobile | packages/web-runtime/src/gittydocs/components/docs/table-of-contents.tsx:118 | the mobile panel flips; the visible set, the active and remembered slugs and the URL fragment stay |
| Toc.Tracker.PointerDown | packages/web-runtime/src/gittydocs/components/docs/table-of-contents.tsx:72-85 | on the mobile variant with the panel open, a pointer-down outside it closes it; the visible set, the active and remembered slugs and the URL fragment stay |
| FlexSearch.Escape | packages/web-runtime/src/gittydocs/hooks/use-flex-search.ts:103 | escaping never shortens the query and gives the empty text exactly for the empty query |
| FlexSearch.UnescapeEscape | packages/web-runtime/src/gittydocs/hooks/use-flex-search.ts:103 | escaping loses nothing: reading the escaped query back gives the query |
| FlexSearch.EscapePlain | packages/web-runtime/src/gittydocs/hooks/use-flex-search.ts:103 | a query without special characters is passed on unchanged |
| FlexSearch.EscapeOne | packages/web-runtime/src/gittydocs/hooks/use-flex-search.ts:103 | each special character gets exactly one backslash in front of it |
| FlexSearch.FindFrom | packages/web-runtime/src/gittydocs/hooks/use-flex-search.ts:22 | a match is found at or after `lastIndex`, never past the end |
| FlexSearch.FindFromFirst | packages/web-runtime/src/gittydocs/hooks/use-flex-search.ts:22 | the position found is a case-insensitive match with none before it; none is found exactly when no match follows |
| FlexSearch.PositionsAreMatches | packages/web-runtime/src/gittydocs/hooks/use-flex-search.ts:21-26 | the collected positions are at most `limit` matches, in text order and not overlapping |
| FlexSearch.PositionsSkipNothing | packages/web-runtime/src/gittydocs/hooks/use-flex-search.ts:21-26 | no match lies between two successive positions |
| FlexSearch.PositionsFirst | packages/web-runtime/src/gittydocs/hooks/use-flex-search.ts:21-26 | no match lies before the first position |
| FlexSearch.PositionsExhaust | packages/web-runtime/src/gittydocs/hooks/use-flex-search.ts:21-26 | when fewer than `limit` positions were found, no match follows the last one |
| FlexSearch.StripMarksPlain | packages/web-runtime/src/gittydocs/hooks/use-flex-search.ts:4-9 | text without `<` passes through the tag deletion unchanged |
| FlexSearch.StripMarksMark | packages/web-runtime/src/gittydocs/hooks/use-flex-search.ts:4-9 | marking only adds tags: deleting `<mark>` and `</mark>` gives the text back, keeping the casing of every match |
| FlexSearch.MarkWithoutMatch | packages/web-runtime/src/gittydocs/hooks/use-flex-search.ts:4-9 | a non-empty term that occurs nowhere leaves the text as it is |
| FlexSearch.Clamp | packages/web-runtime/src/gittydocs/hooks/use-flex-search.ts:35 | `substring` clamps each end into the text and keeps an end that is already inside |
| FlexSearch.ExcerptWindow | packages/web-runtime/src/gittydocs/hooks/use-flex-search.ts:29-38 | the excerpt window runs from 20 characters before a match to 80 after its start, clamped to the text, and trimming only shortens it |
| FlexSearch.MatchInWindow | packages/web-runtime/src/gittydocs/hooks/use-flex-search.ts:29-38 | a match of at most 80 characters lies wholly inside its window |
| FlexSearch.MarkAll | packages/web-runtime/src/gittydocs/hooks/use-flex-search.ts:29-38 | one marked excerpt per position |
| FlexSearch.HighlightShape | packages/web-runtime/src/gittydocs/hooks/use-flex-search.ts:11-41 | at most `limit` highlights, one per match position, each the marked excerpt around it |
| FlexSearch.HighlightMatches | packages/web-runtime/src/gittydocs/hooks/use-flex-search.ts:11-41 | the marked excerpt around each match position the exec loop finds, at most `limit`; `FlexSearch.HighlightShape` and `FlexSearch.GetHighlightMatches` are its contracts |
| FlexSearch.NoMatchNoHighlights | packages/web-runtime/src/gittydocs/hooks/use-flex-search.ts:11-41 | a text where the term never occurs has no highlights |
| FlexSearch.MatchIndexes | packages/web-runtime/src/gittydocs/hooks/use-flex-search.ts:15-26 | the `exec` loop collects exactly the successive match positions, up to `limit` |
| FlexSearch.GetHighlightMatches | packages/web-runtime/src/gittydocs/hooks/use-flex-search.ts:11-41 | the function returns the marked excerpts of the successive matches, at most `limit` of them |
| FlexSearch.FoundOf | packages/web-runtime/src/gittydocs/hooks/use-flex-search.ts:113-122 | a result keeps its data item, and has highlights (at most three) exactly when its highlightable text is non-empty |
| FlexSearch.FoundAll | packages/web-runtime/src/gittydocs/hooks/use-flex-search.ts:111-125 | one result per id the index returned, in its order |
| FlexSearch.SearchResults | packages/web-runtime/src/gittydocs/hooks/use-flex-search.ts:97-126 | before the index is ready, or for an empty query, all data or nothing, as `returnAllOnEmpty` says; otherwise one result per returned id |
| FlexSearch.FlexIndex.constructor | packages/web-runtime/src/gittydocs/hooks/use-flex-search.ts:59-67 | the index starts out not ready; `returnAllOnEmpty` defaults to true |
| FlexSearch.FlexIndex.Mount | packages/web-runtime/src/gittydocs/hooks/use-flex-search.ts:70-84 | with data, every item's searchable string is indexed under its position and the index becomes ready; with none nothing changes |
| FlexSearch.FlexIndex.Search | packages/web-runtime/src/gittydocs/hooks/use-flex-search.ts:97-126 | the hook's search returns the specified results for its current state |
| Frontmatter.StripFrontmatter | packages/web-runtime/scripts/prepare-docs.ts:604-610 | the result is a suffix of the content; content that does not open with `---`, or has no later `\n---`, is returned unchanged; a stripped body never starts with whitespace |
| Frontmatter.LastLineChar | packages/web-runtime/scripts/prepare-docs.ts:618 | the last position in a stretch that `.` can match, or -1 when every character there is a line terminator |
| Frontmatter.ValueAt | packages/web-runtime/scripts/prepare-docs.ts:618 | `\s*(.+)\s*$` captures a non-empty line of non-terminators, and fails exactly when only line terminators follow |
| Frontmatter.FieldAt | packages/web-runtime/scripts/prepare-docs.ts:618 | a successful match attempt captures a non-empty value |
| Frontmatter.FirstField | packages/web-runtime/scripts/prepare-docs.ts:619 | the leftmost start position where the attempt succeeds decides; none exactly when every attempt fails |
| Frontmatter.Unquote | packages/web-runtime/scripts/prepare-docs.ts:623-628 | a value wrapped in the same quote character loses exactly its first and last character; any other value is unchanged |
| Frontmatter.Clean | packages/web-runtime/scripts/prepare-docs.ts:622-630 | the trimmed, unquoted value, with no value exactly when that is empty |
| Frontmatter.FieldValue | packages/web-runtime/scripts/prepare-docs.ts:617-630 | a value found is non-empty and comes from a successful match |
| Frontmatter.ExtractFrontmatterField | packages/web-runtime/scripts/prepare-docs.ts:612-631 | a value found is non-empty; content without an opening `---` or a later `\n---` has no fields |
| Frontmatter.ClosedBlock | packages/web-runtime/scripts/prepare-docs.ts:604-631 | on a block closed by its first `\n---`, stripping gives the body without its leading whitespace and fields are read from the block alone |
| Frontmatter.FieldLineLayout | packages/web-runtime/scripts/prepare-docs.ts:618-619 | a `\nFIELD:` followed by one whitespace character and a line that starts with a non-blank captures that line |
| Frontmatter.FieldLineMatches | packages/web-runtime/scripts/prepare-docs.ts:618-619 | the usual layout `FIELD: raw` right after the opening marker captures `raw` |
| Frontmatter.EmptyFieldTakesNextLine | packages/web-runtime/scripts/prepare-docs.ts:618-619 | `\s*` after the colon crosses line breaks: an empty `FIELD:` line takes the whole next line as its value |
| Frontmatter.FieldLineHasNoClosing | packages/web-runtime/scripts/prepare-docs.ts:606 | no closing marker starts inside a `FIELD: raw` line |
| Frontmatter.SingleFieldDocument | packages/web-runtime/scripts/prepare-docs.ts:604-631 | a document with one `FIELD: raw` line gives the cleaned `raw` as that field, and strips to its body without leading whitespace |
| Frontmatter.TrimBlank | packages/web-runtime/scripts/prepare-docs.ts:622 | trimming a whitespace-only text leaves nothing |
| Frontmatter.BlankIsNull | packages/web-runtime/scripts/prepare-docs.ts:622-630 | a whitespace-only capture gives no value |
| Frontmatter.PlainValue | packages/web-runtime/scripts/prepare-docs.ts:622-630 | a value without surrounding whitespace or matching quotes is returned as it is |
| Frontmatter.QuotedValue | packages/web-runtime/scripts/prepare-docs.ts:623-630 | a value in matching quotes loses them, and an empty quoted value is no value |
| Frontmatter.QuotedTitle | packages/web-runtime/scripts/prepare-docs.ts:612-631 | `title: "x"` gives the title `x` |
| Frontmatter.BlankFieldValue | packages/web-runtime/scripts/prepare-docs.ts:618-630 | a `FIELD: ` line holding only a blank gives no value |
| Frontmatter.BlankField | packages/web-runtime/scripts/prepare-docs.ts:612-631 | a field with only blanks before the closing marker gives no value |
| Llms.BaseName | packages/web-runtime/scripts/prepare-docs.ts:595 | the base name holds no `/` and ends the path |
| Llms.ExtName | packages/web-runtime/scripts/prepare-docs.ts:588 | the extension is empty or a proper suffix of the name starting with `.` |
| Llms.PageTitle | packages/web-runtime/scripts/prepare-docs.ts:595 | the front matter title when there is one, else the default label of the file name |
| Llms.CollectPage | packages/web-runtime/scripts/prepare-docs.ts:591-599 | a page's route is rooted, its source path uses `/`, its title follows `PageTitle`, a description is never empty and the body is a suffix of the file's text |
| Llms.CollectDocsPages | packages/web-runtime/scripts/prepare-docs.ts:583-602 | the loop collects exactly the pages of `DocPages`, in walk order |
| Llms.DocPagesFromMarkdown | packages/web-runtime/scripts/prepare-docs.ts:586-600 | every collected page is the page of a walked Markdown file |
| Llms.MarkdownFileCollected | packages/web-runtime/scripts/prepare-docs.ts:586-600 | every walked Markdown file contributes its page |
| Llms.PlainFilePage | packages/web-runtime/scripts/prepare-docs.ts:595-599 | a file without front matter is titled by its name, has no description and keeps its whole text |
| Llms.BaseNameOf | packages/web-runtime/scripts/prepare-docs.ts:595 | the base name of `dir/name` is `name` |
| Llms.IndexFileTitle | packages/web-runtime/scripts/prepare-docs.ts:595 | an `index.md` without a title is called "Overview" |
| Llms.NormalizeLlmsDirShape | packages/web-runtime/scripts/prepare-docs.ts:838-841 | the llms directory is never empty and neither starts nor ends with `/` |
| Llms.NormalizeLlmsDir | packages/web-runtime/scripts/prepare-docs.ts:838-841 | the configured directory or `llms`, trimmed and stripped of slashes at both ends, and `llms` when nothing is left; `Llms.NormalizeLlmsDirShape` and `Llms.MissingDirIsDefault` state its guarantees |
| Llms.PlainDirKept | packages/web-runtime/scripts/prepare-docs.ts:838-841 | a directory that is already trimmed and slash-free at both ends is kept |
| Llms.MissingDirIsDefault | packages/web-runtime/scripts/prepare-docs.ts:838-841 | without a configured directory it is `llms` |
| Llms.MarkdownExtensionToMd | packages/web-runtime/scripts/prepare-docs.ts:844 | a `.md`/`.mdx` ending (any case) becomes `.md`; any other path is unchanged |
| Llms.BuildLlmsPath | packages/web-runtime/scripts/prepare-docs.ts:843-846 | the path is `/dir/` followed by a part that does not start with `/` |
| Llms.MarkdownLlmsPath | packages/web-runtime/scripts/prepare-docs.ts:843-846 | a Markdown source path maps to `/dir/<stem>.md` |
| Llms.NormalizeLlmsPath | packages/web-runtime/scripts/prepare-docs.ts:832-836 | no path exactly when it is missing or empty; otherwise a URL or a rooted path that ends with the input and is at most one character longer |
| Llms.NormalizeLlmsPathIdempotent | packages/web-runtime/scripts/prepare-docs.ts:832-836 | normalizing twice is normalizing once |
| Llms.RootedIsNotUrl | packages/web-runtime/scripts/prepare-docs.ts:834 | a path starting with `/` is never taken for an http(s) URL |
| Llms.ResolveThemeFile | packages/web-runtime/scripts/prepare-docs.ts:484-488 | the configured CSS file when it is a non-empty string, else `theme.css` |
| Llms.LastPageWins | packages/web-runtime/scripts/prepare-docs.ts:804-815 | for the last page with a route, the title and path maps hold its title and its llms path |
| Llms.TitleMapKeys | packages/web-runtime/scripts/prepare-docs.ts:804-815 | the title map has a key exactly for each page's route |
| Llms.PathMapKeys | packages/web-runtime/scripts/prepare-docs.ts:804-815 | the path map has the same keys as the title map |
| Llms.DescriptionMapFromPages | packages/web-runtime/scripts/prepare-docs.ts:808-811 | every description in the map is non-empty and is the description of a page with that route |
| Llms.UniqueDescription | packages/web-runtime/scripts/prepare-docs.ts:808-811 | a page with a unique route is in the description map exactly when it has a description, and with that description |
| Llms.ResolveLlmsPath | packages/web-runtime/scripts/prepare-docs.ts:827-830 | a URL is kept; otherwise the result is the path itself or the path map's entry for it |
| Llms.RenderNavLine | packages/web-runtime/scripts/prepare-docs.ts:817-825 | a nav line is a Markdown list link |
| Llms.SeededNavLine | packages/web-runtime/scripts/prepare-docs.ts:804-825 | after seeding, the line of a page with a unique route links its title to its llms file and adds its description when it has one |
| Llms.EntryOf | packages/web-runtime/scripts/prepare-docs.ts:789-798 | an item gives no line exactly when its path is missing, empty or `/llms.txt`, else one line for its normalized path and its caption |
| Llms.NavEntriesEligible | packages/web-runtime/scripts/prepare-docs.ts:783-802 | every rendered entry has a non-empty path that is not `/llms.txt` and is a URL or rooted |
| Llms.GroupFlattensOneLevel | packages/web-runtime/scripts/prepare-docs.ts:786-794 | a group renders as its children, one level deep, and never as itself |
| Llms.SkippedLeaf | packages/web-runtime/scripts/prepare-docs.ts:796-798 | a leaf without a path or linking to `/llms.txt` renders nothing |
| Llms.FinishShape | packages/web-runtime/scripts/prepare-docs.ts:780 | the joined text ends with exactly one newline after a non-blank character |
| Llms.FinishPrefix | packages/web-runtime/scripts/prepare-docs.ts:780 | the text starts with any prefix of its lines, joined and trimmed at the end |
| Llms.FinishPrefixExact | packages/web-runtime/scripts/prepare-docs.ts:780 | a prefix of lines ending in a non-blank character appears untrimmed at the start |
| Llms.HeaderLines | packages/web-runtime/scripts/prepare-docs.ts:741-753 | the head opens with `# <site name>` and ends with the "Table of Contents" heading and a blank line |
| Llms.Partition | packages/web-runtime/scripts/prepare-docs.ts:755-765 | sections are exactly the groups of the nav, standalone items exactly the leaves with a path, and together no more than the nav |
| Llms.PartitionNav | packages/web-runtime/scripts/prepare-docs.ts:755-765 | the loop splits the nav into the standalone items and the sections of `Partition` |
| Llms.LlmsTxtShape | packages/web-runtime/scripts/prepare-docs.ts:738-781 | llms.txt starts with its head lines and ends with one newline after a non-blank character |
| Llms.LlmsTxt | packages/web-runtime/scripts/prepare-docs.ts:738-781 | the head, the standalone pages and the section blocks, trimmed at the end and closed by one newline; `Llms.LlmsTxtShape` and `Llms.LlmsMaps.RenderLlmsTxt` are its contracts |
| Llms.HeadingLine | packages/web-runtime/scripts/prepare-docs.ts:863-864 | the heading line is the body's first line: a prefix without a newline, followed by a newline or the end |
| Llms.PageLines | packages/web-runtime/scripts/prepare-docs.ts:859-888 | a page file starts with a Markdown heading, followed by a blank line and the description as a quote when there is one |
| Llms.LlmsPageShape | packages/web-runtime/scripts/prepare-docs.ts:859-888 | a page file starts with the body's own heading line if the body opens with `#`, else with `# <title>`, and ends with one newline after a non-blank character |
| Llms.RenderLlmsPage | packages/web-runtime/scripts/prepare-docs.ts:859-888 | the page's heading (its own or its title), the quoted description and the body, closed by one newline; `Llms.LlmsPageShape` and `Llms.LlmsPageDescription` are its contracts |
| Llms.LlmsPageDescription | packages/web-runtime/scripts/prepare-docs.ts:859-888 | a description appears as a quote after the first line and a blank line |
| Llms.PageFileLinked | packages/web-runtime/scripts/prepare-docs.ts:843-857 | the file written for a page is where its llms.txt line links to |
| Llms.PageFiles | packages/web-runtime/scripts/prepare-docs.ts:848-857 | one file per page in page order: the `.md` path under the llms directory and the rendered page after a byte order mark; `Llms.PageFileLinked` ties each path to the page's link in llms.txt |
| Llms.WriteLlmsSubpages | packages/web-runtime/scripts/prepare-docs.ts:848-857 | the loop over the pages produces exactly `PageFiles`: one file per page, in order |
| Llms.UnrootedStaysUnrooted | packages/web-runtime/scripts/prepare-docs.ts:844-845 | changing the extension of an unrooted path leaves no leading slash to strip |
| Llms.LlmsMaps.constructor | packages/web-runtime/scripts/prepare-docs.ts:85-87 | the three maps start empty |
| Llms.LlmsMaps.Seed | packages/web-runtime/scripts/prepare-docs.ts:804-815 | after seeding, the maps are the title, description and path maps of the pages |
| Llms.LlmsMaps.RenderEntry | packages/web-runtime/scripts/prepare-docs.ts:789-798 | one item's line is the line `EntryOf` allows, rendered with the current maps |
| Llms.LlmsMaps.RenderLeaves | packages/web-runtime/scripts/prepare-docs.ts:787-792 | the inner loop renders the children's entries in order |
| Llms.LlmsMaps.RenderNavItems | packages/web-runtime/scripts/prepare-docs.ts:783-802 | the loop renders the entries of the nav, with groups flattened, in order |
| Llms.LlmsMaps.RenderPages | packages/web-runtime/scripts/prepare-docs.ts:767-771 | the "Pages" block, only when there are standalone items |
| Llms.LlmsMaps.RenderSections | packages/web-runtime/scripts/prepare-docs.ts:773-779 | per section, its heading, its lines and a blank line |
| Llms.LlmsMaps.RenderLlmsTxt | packages/web-runtime/scripts/prepare-docs.ts:738-781 | the text is the llms.txt of the current maps, whose shape `LlmsTxtShape` states |
| Llms.LlmsMaps.WriteLlmsFile | packages/web-runtime/scripts/prepare-docs.ts:460-482 | switched off, nothing is written and the maps are untouched; otherwise the maps are seeded from the collected pages and llms.txt (after a byte order mark) is rendered from the configured nav or the one built from the pages |
| MarkdownStrip.RemoveFences | apps/web/src/lib/gittydocs/search.ts:66 | removing fenced blocks never lengthens the text |
| MarkdownStrip.FenceRemoved | apps/web/src/lib/gittydocs/search.ts:66 | a block between two triple backticks, with no backtick before or inside it, goes together with its fences |
| MarkdownStrip.RemoveInlineCode | apps/web/src/lib/gittydocs/search.ts:68 | removing code spans never lengthens the text |
| MarkdownStrip.InlineCodeRemoved | apps/web/src/lib/gittydocs/search.ts:68 | a span between two backticks goes together with its backticks |
| MarkdownStrip.FencesKeepPlain | apps/web/src/lib/gittydocs/search.ts:66-68 | text without backticks passes the two code passes unchanged |
| MarkdownStrip.HeadingMarkerAt | apps/web/src/lib/gittydocs/search.ts:70 | a heading marker found at a position starts with `#` and lies inside the text |
| MarkdownStrip.HeadingMarkerLength | apps/web/src/lib/gittydocs/search.ts:70 | one to six `#` then whitespace at a line start: the marker and the whole whitespace run are matched |
| MarkdownStrip.SevenHashesKept | apps/web/src/lib/gittydocs/search.ts:70 | seven `#` are no heading marker |
| MarkdownStrip.RemoveHeadingMarkersFrom | apps/web/src/lib/gittydocs/search.ts:70 | the pass from a position never yields more than the rest of the text |
| MarkdownStrip.RemoveHeadingMarkers | apps/web/src/lib/gittydocs/search.ts:70 | removing heading markers never lengthens the text |
| MarkdownStrip.HeadingMarkersKeepPlain | apps/web/src/lib/gittydocs/search.ts:70 | text without `#` passes the heading pass unchanged |
| MarkdownStrip.RemoveEmphasis | apps/web/src/lib/gittydocs/search.ts:72 | no `*` or `_` survives, and the text never grows |
| MarkdownStrip.LinkAt | apps/web/src/lib/gittydocs/search.ts:74 | a link match at the head starts with `[`, has a non-empty text and room for `](`, a url and `)` |
| MarkdownStrip.LinkAtLink | apps/web/src/lib/gittydocs/search.ts:74 | `[text](url)` with text free of `]` and url free of `)` is matched whole, with its text length |
| MarkdownStrip.ReplaceLinks | apps/web/src/lib/gittydocs/search.ts:74 | replacing links never lengthens the text |
| MarkdownStrip.LinkReplaced | apps/web/src/lib/gittydocs/search.ts:74 | a link at the head becomes its text and the scan resumes after it |
| MarkdownStrip.LinksWithin | apps/web/src/lib/gittydocs/search.ts:74 | the link pass only keeps characters of its input |
| MarkdownStrip.ImageAt | apps/web/src/lib/gittydocs/search.ts:76 | an image match at the head is at least five characters long and inside the text |
| MarkdownStrip.RemoveImages | apps/web/src/lib/gittydocs/search.ts:76 | removing images never lengthens the text |
| MarkdownStrip.ImageAltSurvives | apps/web/src/lib/gittydocs/search.ts:74-76 | since links are replaced first, `![alt](url)` ends up as `!alt` and the image pass never sees it |
| MarkdownStrip.ImagesWithin | apps/web/src/lib/gittydocs/search.ts:76 | the image pass only keeps characters of its input |
| MarkdownStrip.RemoveTags | apps/web/src/lib/gittydocs/search.ts:78 | removing tags never lengthens the text |
| MarkdownStrip.TagsWithin | apps/web/src/lib/gittydocs/search.ts:78 | the tag pass only keeps characters of its input |
| MarkdownStrip.PlainPassesKeep | apps/web/src/lib/gittydocs/search.ts:72-78 | text without Markdown syntax passes the emphasis, link, image and tag passes unchanged |
| MarkdownStrip.CollapseSpaces | apps/web/src/lib/gittydocs/search.ts:80 | every whitespace run becomes a single space, the text never grows, and it starts with whitespace exactly when the input does |
| MarkdownStrip.CollapseWithin | apps/web/src/lib/gittydocs/search.ts:80 | collapsing introduces no character other than the space |
| MarkdownStrip.TrimIsSlice | apps/web/src/lib/gittydocs/search.ts:81 | `trim()` keeps a contiguous slice of its input |
| MarkdownStrip.NoEmphasisAfterCollapse | apps/web/src/lib/gittydocs/search.ts:72-80 | no `*` or `_` reappears after the emphasis pass |
| MarkdownStrip.StripMarkdownShape | apps/web/src/lib/gittydocs/search.ts:62-83 | the stripped text has no `*` or `_`, only single spaces as whitespace, no space at either end, and is never longer than the input |
| MarkdownStrip.StripMarkdown | apps/web/src/lib/gittydocs/search.ts:62-83 | the nine passes in source order; the result is never longer than the input and has no whitespace at either end (the other guarantees are `MarkdownStrip.StripMarkdownShape`) |
| MarkdownStrip.StripPlainText | apps/web/src/lib/gittydocs/search.ts:62-83 | on text without Markdown syntax, stripping only normalises whitespace |
| NavTree.NonEmpty | apps/web/src/lib/gittydocs/nav.ts:15 | the kept segments are the non-empty ones, drawn from the input |
| NavTree.Segments | apps/web/src/lib/gittydocs/nav.ts:15 | every segment is non-empty and holds no `/` |
| NavTree.FindChild | apps/web/src/lib/gittydocs/nav.ts:23 | the index of the first child with the name, or -1 exactly when there is none |
| NavTree.InsertKeepsWellFormed | apps/web/src/lib/gittydocs/nav.ts:18-35 | inserting a path keeps sibling names distinct and non-empty and every node's path its parent's path plus its name |
| NavTree.BuildTreeWellFormed | apps/web/src/lib/gittydocs/nav.ts:11-39 | the built tree is well formed |
| NavTree.BuildTree | apps/web/src/lib/gittydocs/nav.ts:11-39 | the tree after inserting each source path in turn; `NavTree.BuildTreeWellFormed`, `NavTree.InsertReaches` and `NavTree.SlashOnlyPathAddsNothing` state its shape |
| NavTree.InsertReaches | apps/web/src/lib/gittydocs/nav.ts:18-35 | after inserting, the path can be followed; if it could not before, it ends at a new childless file named by the last segment |
| NavTree.InsertKeepsOthers | apps/web/src/lib/gittydocs/nav.ts:23-31 | inserting changes only the sibling named by the first segment, or appends one node |
| NavTree.SlashOnlyPathAddsNothing | apps/web/src/lib/gittydocs/nav.ts:15-18 | an empty or slash-only path adds no node |
| NavTree.BuildFileTree | apps/web/src/lib/gittydocs/nav.ts:11-39 | the outer loop builds `BuildTree` of the paths, which is well formed |
| NavTree.DigitRun | apps/web/src/lib/gittydocs/nav.ts:51 | the run of digits at a position: all digits, and the next character is not one |
| NavTree.NumberPrefixEnd | apps/web/src/lib/gittydocs/nav.ts:51 | a number prefix, when matched, ends just after its `-` |
| NavTree.NodeLeqTotal | apps/web/src/lib/gittydocs/nav.ts:44-59 | any two siblings are ordered one way or the other |
| NavTree.NodeLeqTransitive | apps/web/src/lib/gittydocs/nav.ts:44-59 | the sibling order is transitive |
| NavTree.InsertNode | apps/web/src/lib/gittydocs/nav.ts:44 | insertion adds exactly one node |
| NavTree.SortNodes | apps/web/src/lib/gittydocs/nav.ts:44 | sorting keeps the number of siblings |
| NavTree.InsertNodeCount | apps/web/src/lib/gittydocs/nav.ts:44 | insertion adds exactly the inserted node to the multiset |
| NavTree.InsertNodeSorted | apps/web/src/lib/gittydocs/nav.ts:44-59 | inserting into a sorted list keeps it sorted |
| NavTree.SortNodesShape | apps/web/src/lib/gittydocs/nav.ts:44-59 | the siblings come out sorted by the comparator and as a permutation of the input |
| NavTree.IndexFirst | apps/web/src/lib/gittydocs/nav.ts:45-49 | in sorted siblings only `index.*` names precede an `index.*` name |
| NavTree.NumberedOrder | apps/web/src/lib/gittydocs/nav.ts:51-54 | numbered names among sorted siblings appear in ascending number |
| NavTree.DropNumberPrefix | apps/web/src/lib/gittydocs/nav.ts:100 | dropping the prefix never lengthens the name |
| NavTree.NumberPrefixDropped | apps/web/src/lib/gittydocs/nav.ts:100 | exactly one leading `digits-` goes, and the rest is kept |
| NavTree.Capitalize | apps/web/src/lib/gittydocs/nav.ts:103 | the first character is upper-cased and the rest kept |
| NavTree.CapitalizeAll | apps/web/src/lib/gittydocs/nav.ts:103 | each word is capitalised in place |
| NavTree.LabelWords | apps/web/src/lib/gittydocs/nav.ts:100-103 | one word per hyphen-separated piece of the unprefixed name, each as long as its piece, with no hyphen, its first character not lower case and the rest unchanged |
| NavTree.FormatLabelWords | apps/web/src/lib/gittydocs/nav.ts:99-105 | the label joins those words with spaces and holds no hyphen |
| NavTree.FormatLabel | apps/web/src/lib/gittydocs/nav.ts:99-105 | drop one `digits-` prefix, split on `-`, capitalise each word and join with spaces; `NavTree.FormatLabelWords` says no `-` is left and each word is capitalised |
| NavTree.DefaultLabel | apps/web/src/lib/gittydocs/nav.ts:94-97 | `index.*` is "Overview", anything else the formatted name without its Markdown extension |
| NavTree.FirstPageTitle | apps/web/src/gittydocs/contexts/docs.context.tsx:287-288 | the title of the first page with the route, or empty when none has it |
| NavTree.FileRoute | apps/web/src/lib/gittydocs/nav.ts:74 | a file node's route starts with `/` |
| NavTree.NavFromTreeShaped | apps/web/src/lib/gittydocs/nav.ts:41-81 | every item is a link with a rooted path or a non-empty group of such items, and there are no more items than nodes |
| NavTree.NavFromTree | apps/web/src/lib/gittydocs/nav.ts:41-81 | siblings sorted by `SortNodes`, then a group per directory with nav children and an item per file; `NavTree.NavFromTreeShaped` and `NavTree.EmptyDirectoryDropped` state the result's shape |
| NavTree.NavFromPaths | apps/web/src/gittydocs/contexts/docs.context.tsx:206-214 | a configured non-empty nav is returned as it is |
| NavTree.NavFromPathsShaped | apps/web/src/lib/gittydocs/nav.ts:3-9 | without a configured nav, the built nav is well shaped and no longer than the tree's top level |
| NavTree.EmptyDirectoryDropped | apps/web/src/lib/gittydocs/nav.ts:62-70 | a directory without children contributes no item |
| Routes.DropTrailingWord | apps/web/scripts/gen-velite-routes.ts:26 | removing a trailing word leaves a prefix of the route |
| Routes.EnsureLeadingSlash | apps/web/scripts/gen-velite-routes.ts:31 | the result starts with `/` |
| Routes.RouteOf | apps/web/scripts/gen-velite-routes.ts:23-32 | every copy of `toRoutePath` yields a path starting with `/` |
| Routes.EndsWithWord | apps/web/scripts/gen-velite-routes.ts:25 | `p/w` ends with `/w` and starts with `p` |
| Routes.DropWordParent | apps/web/scripts/gen-velite-routes.ts:26 | removing a trailing `/w` leaves the parent |
| Routes.PlainParentKept | apps/web/scripts/gen-velite-routes.ts:25-31 | a route neither step touches only gains its leading slash |
| Routes.PrepareKeeps | apps/web/scripts/gen-velite-routes.ts:24 | the slug and nav copies leave an unrooted path as it is |
| Routes.CollapseIndexChild | apps/web/scripts/gen-velite-routes.ts:25-27 | the `index` step turns `p/index` into `p` |
| Routes.CollapseReadmeChild | apps/web/scripts/gen-velite-routes.ts:28-30 | the `readme` step turns `p/readme` into `p` |
| Routes.IndexIsRoot | apps/web/scripts/gen-velite-routes.ts:25-27 | `index` alone is the root route |
| Routes.IndexCollapsesToParent | apps/web/scripts/gen-velite-routes.ts:23-32 | a trailing `/index` segment collapses to its parent's route |
| Routes.CollapseIndex | apps/web/scripts/gen-velite-routes.ts:25-27 | a route ending in `/index` or equal to `index` loses that word, becoming `/` when nothing is left; `Routes.IndexCollapsesToParent` and `Routes.IndexIsRoot` state it |
| Routes.ReadmeCollapsesToParent | apps/web/scripts/gen-velite-routes.ts:23-32 | a trailing lower-case `/readme` segment collapses to its parent's route |
| Routes.CollapseReadme | apps/web/scripts/gen-velite-routes.ts:28-30 | the same for `readme`, with a case-insensitive bare-name test and a case-sensitive removal; `Routes.ReadmeCollapsesToParent` and `Routes.ReadmeFileRoute` state it |
| Routes.PlainRouteKept | apps/web/scripts/gen-velite-routes.ts:23-32 | any other unrooted route only gains its leading slash |
| Routes.SlugLeadingSlash | apps/web/scripts/gen-velite-routes.ts:24 | `/x` and `x` give the same slug route |
| Routes.SlugAgreesWithPlain | apps/web/src/lib/gittydocs/nav.ts:83-92 | on unrooted paths the slug copies and the nav copy agree |
| Routes.ReadmeMdLower | packages/web-runtime/scripts/prepare-docs.ts:895 | lower-casing `README` gives `readme` |
| Routes.ReadmeMdPrepared | packages/web-runtime/scripts/prepare-docs.ts:892 | `README.md` loses its extension |
| Routes.ReadmeFileRoute | packages/web-runtime/scripts/prepare-docs.ts:891-900 | `README.md` keeps its capitals and becomes `/README`, since the removal pattern is case-sensitive though the test is not |
| Routes.IndexMdxPrepared | packages/web-runtime/scripts/prepare-docs.ts:892 | `index.mdx` loses its extension |
| Routes.IndexFileRoute | packages/web-runtime/scripts/prepare-docs.ts:891-900 | `index.mdx` is the root route |
| Routes.NormalizeRoutePath | apps/web/src/lib/gittydocs/store.ts:94-97 | the empty path and `/` are the root; any other path loses exactly one trailing slash and is otherwise unchanged |
| Routes.NormalizeDropsOneSlash | apps/web/src/lib/gittydocs/store.ts:94-97 | a path ending in two slashes keeps one |
| Routes.StrLessIrreflexive | apps/web/scripts/gen-velite-routes.ts:12 | the string order is irreflexive |
| Routes.StrLessTransitive | apps/web/scripts/gen-velite-routes.ts:12 | the string order is transitive |
| Routes.StrLessTotal | apps/web/scripts/gen-velite-routes.ts:12 | two different strings are ordered one way or the other |
| Routes.InsertRoute | apps/web/scripts/gen-velite-routes.ts:12 | inserting adds at most one route |
| Routes.InsertRouteSorted | apps/web/scripts/gen-velite-routes.ts:12 | inserting into a strictly sorted list keeps it strictly sorted and adds exactly the new route |
| Routes.SortUnique | apps/web/scripts/gen-velite-routes.ts:12 | deduplicating and sorting never adds entries |
| Routes.SortUniqueShape | apps/web/scripts/gen-velite-routes.ts:12 | the result is strictly sorted and holds exactly the input's values |
| Routes.SlugRoutes | apps/web/scripts/gen-velite-routes.ts:11 | one route per slug, in order |
| Routes.RouteListShape | apps/web/scripts/gen-velite-routes.ts:11-12 | the route list holds `/` and exactly the slug routes besides, each once, all rooted, in ascending order |
| Routes.RouteList | apps/web/scripts/gen-velite-routes.ts:11-12 | `/` and the slug routes, deduplicated and sorted; `Routes.RouteListShape` states it |
| Search.HeadingTexts | apps/web/src/lib/gittydocs/search.ts:26-28 | one text per heading, in order |
| Search.IndexedTexts | apps/web/src/lib/gittydocs/search.ts:16-33 | a page is indexed by its title first, its stripped body last, with its description (when non-empty) and every heading text between |
| Search.PageTexts | apps/web/src/lib/gittydocs/search.ts:16-33 | the loop gathers exactly those texts |
| Search.SnippetOf | apps/web/src/lib/gittydocs/search.ts:85-105 | a snippet is at most 156 characters longer than the query and 6 longer than the text; without a match it is the first 150 characters, with `...` only when the text was longer |
| Search.GenerateSnippet | apps/web/src/lib/gittydocs/search.ts:85-105 | the snippet of the markdown-stripped content; `Search.SnippetOf`, `Search.SnippetWindow` and `Search.SnippetContainsMatch` state its window |
| Search.SnippetAt | apps/web/src/lib/gittydocs/search.ts:90-104 | the same bounds and no-match case, for a given match position |
| Search.SnippetWindow | apps/web/src/lib/gittydocs/search.ts:96-104 | with a match, the snippet is the text from 60 characters before the match to 90 after its end, clipped to the text, with `...` on each side that was cut, and the window holds the whole match |
| Search.SnippetContainsMatch | apps/web/src/lib/gittydocs/search.ts:85-105 | with a match, the snippet still contains the query (ignoring case) at the shifted position |
| Search.OccursInWindow | apps/web/src/lib/gittydocs/search.ts:100-102 | a match inside the window survives the slicing and the added dots |
| Search.Collect | apps/web/src/lib/gittydocs/search.ts:44-57 | there are never more results than ids |
| Search.CollectResults | apps/web/src/lib/gittydocs/search.ts:44-57 | every result names a returned id with a stored page, that page's title and its snippet |
| Search.CollectRoutes | apps/web/src/lib/gittydocs/search.ts:44-57 | the results are the returned ids that have a stored page, in the index's order |
| Search.StoredIds | apps/web/src/lib/gittydocs/search.ts:46-47 | the kept ids all have a stored page and are no more than the ids returned |
| Search.CollectNoneStored | apps/web/src/lib/gittydocs/search.ts:46-47 | when no returned id has a stored page there are no results |
| Search.CollectAllStored | apps/web/src/lib/gittydocs/search.ts:44-57 | when every returned id has a stored page there is one result per id |
| Search.BlankIffAllSpace | apps/web/src/lib/gittydocs/search.ts:39 | a query is blank exactly when it is all whitespace |
| Search.NonSpaceSurvives | apps/web/src/lib/gittydocs/search.ts:39 | a query with a non-whitespace character is not blank |
| Search.AllSpaceTrims | apps/web/src/lib/gittydocs/search.ts:39 | an all-whitespace string trims to nothing |
| Search.SearchIndex.constructor | apps/web/src/lib/gittydocs/search.ts:8-14 | the index and the page map start empty |
| Search.SearchIndex.AddPage | apps/web/src/lib/gittydocs/search.ts:16-36 | the page's texts are recorded for its route and the page is stored under it, replacing any earlier page there; nothing else changes |
| Search.SearchIndex.Search | apps/web/src/lib/gittydocs/search.ts:38-60 | the index returns at most 10 ids; a blank query gives no results; otherwise the results are `Collect` of the returned ids, so at most 10 |
| Search.SearchIndex.Clear | apps/web/src/lib/gittydocs/search.ts:107-113 | the index and the page map are empty again, so no later search finds a stored page (`CollectNoneStored`) |
| SearchDialog.SelectNext | apps/web/src/components/docs/search-dialog.tsx:33 | ArrowDown moves one row down unless the selection is already at the last result |
| SearchDialog.SelectPrevious | apps/web/src/components/docs/search-dialog.tsx:36 | ArrowUp moves one row up and never below the first row |
| SearchDialog.SelectNextStaysInList | apps/web/src/components/docs/search-dialog.tsx:33 | any number of ArrowDown presses from a row in the list ends on the row that many further down, or on the last row, never past it |
| SearchDialog.SelectNextWithoutResults | apps/web/src/components/docs/search-dialog.tsx:33 | with no results ArrowDown leaves the selection alone |
| SearchDialog.Dialog.constructor | apps/web/src/components/docs/search-dialog.tsx:13-17 | the query is empty, there are no results, the first row is selected and nothing has navigated |
| SearchDialog.Dialog.SetQuery | apps/web/src/components/docs/search-dialog.tsx:19-28 | a changed query of two or more characters is searched (blank ones give no results) and the selection reset; a shorter one clears the results but keeps the selection; an unchanged query changes nothing; results only ever exist for a searched query |
| SearchDialog.Dialog.ClearQuery | apps/web/src/components/docs/search-dialog.tsx:44 | the query empties, and with it the results unless it was already empty |
| SearchDialog.Dialog.ArrowDown | apps/web/src/components/docs/search-dialog.tsx:31-33 | only the selection moves, as `SelectNext` says |
| SearchDialog.Dialog.ArrowUp | apps/web/src/components/docs/search-dialog.tsx:34-36 | only the selection moves, as `SelectPrevious` says |
| SearchDialog.Dialog.Enter | apps/web/src/components/docs/search-dialog.tsx:37-45 | with a result at the selection, navigate to its route under the base path, close the dialog and clear the query and results; with none, nothing changes |
| SearchDialog.Dialog.Escape | apps/web/src/components/docs/search-dialog.tsx:46-48 | the dialog closes and nothing else changes |
| SearchDialog.Dialog.Hover | apps/web/src/components/docs/search-dialog.tsx:116 | hovering a shown result makes its row the selection, so Enter then opens that result; query, results, open state and location stay |
| SearchDialog.Dialog.Select | apps/web/src/components/docs/search-dialog.tsx:51-55 | navigate to the chosen result's route under the base path, close the dialog and clear the query (and with it the results); the selection stays |
| Store.SourcePaths | apps/web/src/lib/gittydocs/store.ts:65 | one source path per page, in order |
| Store.HomePage | apps/web/src/lib/gittydocs/store.ts:76 | the current page after initialisation is the page at `/` exactly when there is one |
| Store.Load | apps/web/src/lib/gittydocs/store.ts:79-92 | a page is found exactly when the normalized route is stored, and it is the page stored there |
| Store.PageMapDomain | apps/web/src/lib/gittydocs/store.ts:63-68 | the page map has a key exactly for each page's route |
| Store.PageMapLastWins | apps/web/src/lib/gittydocs/store.ts:63-68 | the last page with a route is the one stored under it |
| Store.PageMap | apps/web/src/lib/gittydocs/store.ts:63-68 | the routes mapped to their pages, later pages overwriting earlier ones; `Store.PageMapDomain` and `Store.PageMapLastWins` state it |
| Store.StoreNav | apps/web/src/lib/gittydocs/store.ts:70-71 | the configured nav when non-empty, else the nav built from the pages' source paths and titles; `Config.ResolveNavItems` and `NavTree.NavFromPathsShaped` state it |
| Store.TitlesFollowPages | apps/web/src/lib/gittydocs/store.ts:63-68 | the title map has the page map's keys and each title is the stored page's title |
| Store.IndexFollowsPages | apps/web/src/lib/gittydocs/store.ts:63-68 | the search index records, for each stored route, the texts of the page stored there |
| Store.LoadIgnoresTrailingSlash | apps/web/src/lib/gittydocs/store.ts:94-97 | a route with one trailing slash loads the same page as without, and the empty route loads the root |
| Store.LoadFindsPage | apps/web/src/lib/gittydocs/store.ts:63-92 | a page that is last with its route, and whose route has no trailing slash, is found by loading that route |
| Store.CollectPages | apps/web/src/lib/gittydocs/store.ts:57-68 | the loop builds the page map, the source paths, the title map and a new search index holding the pages and their texts |
| Store.DocsStore.constructor | apps/web/src/lib/gittydocs/store.ts:22-45 | the store starts with the configuration, an empty nav, no pages, no current page and an empty search index |
| Store.DocsStore.InitializeDocs | apps/web/src/lib/gittydocs/store.ts:57-77 | afterwards the pages are the page map, the nav is the configured one or the one built from the source paths and titles, a new search index holds the same pages, and the current page is the root page if any; the configuration is the one the store was created with, which no operation changes |
| Store.DocsStore.LoadPage | apps/web/src/lib/gittydocs/store.ts:79-92 | the current page becomes, and the result is, the page `Load` finds, or none; nothing else changes |
| Velite.FirstHashLine | apps/web/velite.config.ts:67 | no line is found exactly when no line starts with `# `; a found line starts with `# ` and is one of the lines |
| Velite.FirstHashLineIsFirst | apps/web/velite.config.ts:67 | the line found is the first line starting with `# ` |
| Velite.HeadingTitleIsTrimmedRest | apps/web/velite.config.ts:69 | removing `#` and the whitespace after it, then trimming, is trimming everything after the `#` |
| Velite.TrimStartDrops | apps/web/velite.config.ts:69 | dropping leading whitespace before trimming changes nothing |
| Velite.Capitalise | apps/web/velite.config.ts:76 | capitalising keeps the word's length |
| Velite.CapitaliseAll | apps/web/velite.config.ts:76 | one capitalised word per word |
| Velite.CapitaliseAfterSpaces | apps/web/velite.config.ts:74-77 | the character-wise title case keeps the length |
| Velite.TitleCaseOneWord | apps/web/velite.config.ts:75-77 | a single word is just capitalised |
| Velite.CapitaliseWord | apps/web/velite.config.ts:76 | capitalising a word is the character-wise rule on it |
| Velite.CapitaliseAfterSpacesConcat | apps/web/velite.config.ts:75-77 | the character-wise rule works word by word across a space |
| Velite.TitleCaseSplit | apps/web/velite.config.ts:75-77 | title casing capitalises the first word and goes on after the first space |
| Velite.TitleCaseChars | apps/web/velite.config.ts:75-77 | splitting on spaces, capitalising and joining is the same as upper-casing every character at the start or after a space |
| Velite.DashesToSpaces | apps/web/velite.config.ts:74 | every `-` and `_` becomes a space and nothing else changes |
| Velite.LastSegment | apps/web/velite.config.ts:71-72 | the fallback segment is non-empty and holds no `/` |
| Velite.TitleFromHeading | apps/web/velite.config.ts:65-70 | a document with a `# ` line takes the trimmed text of the first one as its title |
| Velite.TitleFromSlug | apps/web/velite.config.ts:65-78 | a document without a `# ` line takes its title from the slug |
| Velite.DeriveTitle | apps/web/velite.config.ts:65-78 | the trimmed text of the first line starting with `# `, else the title-cased last slug segment; stated by `Velite.TitleFromHeading`, `Velite.TitleFromSlug` and `Velite.NonTitleLine` |
| Velite.NonTitleLine | apps/web/velite.config.ts:67 | a one-line document whose second character is not a space gets the slug title |
| Velite.FallbackTitleChars | apps/web/velite.config.ts:71-78 | the slug title is the last segment with `-` and `_` turned into spaces and each word's first character upper-cased |
| Velite.EmptySegmentUntitled | apps/web/velite.config.ts:72 | a slug ending in `/` (or empty) gives "Untitled" |
| Velite.UntitledKept | apps/web/velite.config.ts:72-77 | "Untitled" passes the title casing unchanged |
| Velite.SlugAsParamsDropsFirstSegment | apps/web/velite.config.ts:41 | `slugAsParams` is the slug after its first `/`, or empty when there is none |
| Velite.SlugAsParams | apps/web/velite.config.ts:41 | the slug's `/`-segments without the first, joined again; `Velite.SlugAsParamsDropsFirstSegment` says this is everything after the first `/` |
| Velite.Transform | apps/web/velite.config.ts:37-43 | a front matter title is kept, a missing one is derived; the slug and description are kept and `slugAsParams` added |

## Left out

- The FlexSearch index itself (tokenising, forward-partial prefix matching, ranking) belongs to a library whose code is not part of this model: the ids it returns for a query are the parameter `hits`, of at most `SearchLimit` (10) ids in `Search.SearchIndex.Search` and `SearchDialog.Dialog.SetQuery`, and of indices into the data in `FlexSearch.SearchResults`; no contract says which documents match a query.
- Highlighting (`getHighlightMatches`, `replaceTextWithMarker`) builds a `RegExp` from the raw query, so the model covers literal queries only; a query with regex metacharacters (`a(` throws there) is not modelled.
- The in-place write of `highlights` onto each data item is modelled by wrapping the item (`FlexSearch.Found`), so the aliasing of the caller's objects is not captured.
- Case mapping (`toLowerCase`, `toUpperCase`) is ASCII only, so lowercasing keeps lengths and indices; Unicode case folding is out of scope.
- `localeCompare` in the nav sort and `Array.prototype.sort` on the route list are taken as plain character order (`Routes.StrLess`); locale collation and UTF-16 code-unit details are not modelled.
- `decodeURIComponent` is modelled for ASCII escapes; an escape of a byte of 0x80 or above is reported as the same error as a malformed escape, so multi-byte UTF-8 sequences are not decoded.
- JSONC parsing in `parseConfig` is taken at its boundary: the parser's outcome (a value or a throw) is the parameter `Config.ParseOutcome`; the grammar is not modelled.
- File-system and network I/O is left out: `collectFiles`, the GitHub API walk and `fetch`, `copyLocalDocs`, static-folder and theme copying, writing the generated `.ts` files, `buildSourceMapFromLocal`/`writeSourceMap` (only the mapping from a source map to pages is modelled), `fs.rm`/`ensureDir`, and the directory walk in `copyDirInternal` (only its per-entry decision is modelled). `Llms.LlmsMaps.WriteLlmsFile` returns the file contents it would write instead of writing them.
- The deploy command's prompts and file-existence checks are parameters, and `process.exit` is not modelled.
- The DOM, scrolling, `IntersectionObserver` registration (its entries arrive as batches in `Toc`), Solid signals, stores and contexts are modelled only by the state they hold; `window.location.href` is recorded as the field `location`.
- `NavTree.BuildFileTree` builds the tree on values (the datatype `FileNode`) rather than by pushing into shared `children` arrays, so object identity and aliasing are not captured.
- The page records' `date`, `categories`, `tags` and other metadata are not modelled; of velite's schema only the `title` and `slugAsParams` transform and `deriveTitle` are, not the MDX compilation or the excerpt.
- Search.SnippetContainsMatch: states containment up to ASCII case, since the match position comes from the lowercased text.
- The image pass of `stripMarkdown` is described as dropping images whole, but the code replaces links first, so `![alt](url)` leaves `!alt`; the model follows the code (`MarkdownStrip.ImageAltSurvives`).
- A minimum query length of two characters is described for search as a whole, but in the code only the dialog enforces it; `Search.SearchIndex.Search` follows the code and searches any non-blank query.
- Four source loops are recursive functions rather than methods with loop invariants: the `for…of` over sorted siblings in `buildNavFromTree` (`NavTree.NavOfSorted`), the loop over one path's segments in `buildFileTree` (`NavTree.InsertParts`, driven by the method `NavTree.BuildFileTree` over the paths), and the candidate loops of `findLocalConfig` and `findConfigOneLevelDeep` (`Deploy.FirstExisting` over `Deploy.OneLevelDeep`). They compute the same values in the same order, but the step-by-step updates of `nav`, `current` and the early `return` are not modelled as state.
- FlexSearch.FlexIndex.Mount: takes the indexer as a required parameter; the `JSON.stringify(item)` fallback used when no `indexerFn` is configured is left to the caller, because JSON serialisation of arbitrary items is not modelled.
