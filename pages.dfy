/**
 * The page descriptor that the five generators build and that the linker,
 * the validator and the sitemap read.
 */
module Pages {
  import opened Wrappers
  import opened Slug

  /** One internal link as `getLinks` returns it. */
  datatype Link = Link(title: string, url: string, playbook: Playbook)

  /**
   * A generated page. Fields every generator sets are plain strings (the
   * empty string is JavaScript's falsy value); fields some generators leave
   * undefined are optional. `college` is never set by any generator but is
   * read by the linker.
   */
  datatype Page = Page(
    slug: string,
    url: string,
    filePath: string,
    title: string,
    metaDescription: string,
    h1: string,
    primaryKeyword: Option<string>,
    playbook: Playbook,
    keywords: Option<seq<string>>,
    location: Option<string>,
    gender: Option<string>,
    college: Option<string>,
    htmlContent: string,
    internalLinks: Option<seq<Link>>)

  /** JavaScript truthiness of an optional string: present and non-empty. */
  predicate Truthy(o: Option<string>) {
    o.Some? && |o.value| > 0
  }

  /** Two playbook tags are compared as the strings the source holds. */
  predicate SameTag(a: Playbook, b: Playbook) {
    Name(a) == Name(b)
  }
}
