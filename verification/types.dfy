/**
 * The record shapes the documentation site passes around
 * (apps/web/src/lib/gittydocs/types.ts and the identical interfaces of
 * docs.context.tsx). `date` and `categories` are carried through unchanged by
 * every operation and are left out of the records.
 */
module Types {
  import opened Wrappers

  datatype Heading = Heading(level: int, text: string, slug: string)

  datatype DocsPage = DocsPage(
    routePath: string,
    sourcePath: string,
    title: string,
    description: Option<string>,
    headings: seq<Heading>,
    content: string,
    rawContent: string)

  datatype SearchResult = SearchResult(routePath: string, title: string, snippet: string)

  /** A navigation entry (`label` in the source): a link (`path`), a group (`items`), or both. */
  datatype NavItem = NavItem(
    title: string,
    path: Option<string>,
    items: NavItems,
    accordion: bool)

  /** The optional `items` array of a nav entry. */
  datatype NavItems = NoItems | Items(list: seq<NavItem>)

  /** The GitHub coordinates of a documentation source. */
  datatype GitHubRepo = GitHubRepo(owner: string, repo: string, ref: string, docsPath: string)

  /**
   * A document as the content collection delivers it (apps/web/velite.config.ts):
   * the transform has already filled `title` and `slugAsParams`.
   */
  datatype VeliteDoc = VeliteDoc(
    slug: string,
    slugAsParams: string,
    title: string,
    description: Option<string>,
    rawMarkdown: Option<string>,
    content: string)

  /** JavaScript truthiness of an optional string: present and non-empty. */
  predicate Truthy(s: Option<string>) {
    s.Some? && s.value != ""
  }
}
