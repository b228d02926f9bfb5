/**
 * The sitemap: the hand-written site pages with their fixed priorities and
 * change frequencies, followed by every generated page with a priority
 * chosen by its playbook, each written as one `<url>` element stamped with
 * the same date. The date and the output file are the caller's.
 */
module Sitemap {
  import opened Strings
  import opened Slug
  import opened Pages
  import Linking

  const BaseUrl := "https://kangaroohousing.in"

  datatype SitemapEntry = SitemapEntry(url: string, priority: string, changefreq: string)

  /** The hand-written site pages, in the order they are listed. */
  function ExistingPages(): (r: seq<SitemapEntry>)
    ensures |r| == 11
  {
    [ SitemapEntry("/", "1.0", "weekly"),
      SitemapEntry("/pages/pg/PG.html", "0.9", "weekly"),
      SitemapEntry("/pages/pg/sanvi-girls-pg.html", "0.9", "weekly"),
      SitemapEntry("/pages/pg/krishna-boys-pg.html", "0.9", "weekly"),
      SitemapEntry("/pages/pg/swami-vivekanand-pg.html", "0.85", "weekly"),
      SitemapEntry("/pages/pg/balaji-pg.html", "0.85", "weekly"),
      SitemapEntry("/pages/pg/lakshmi-girls-pg.html", "0.85", "weekly"),
      SitemapEntry("/pages/blog/blog.html", "0.7", "weekly"),
      SitemapEntry("/pages/blog/our-facilities.html", "0.7", "monthly"),
      SitemapEntry("/pages/about/about.html", "0.6", "monthly"),
      SitemapEntry("/pages/about/gallery.html", "0.5", "monthly") ]
  }

  /**
   * `priorityMap[tag] || '0.6'`: the six known tags have their own priority,
   * every other tag gets the default. No generated page reaches the 0.9 of
   * the listing pages or the 1.0 of the home page.
   */
  function Priority(tag: string): (r: string)
    ensures r in {"0.8", "0.75", "0.7", "0.6"}
    ensures Parse(tag).Other? ==> r == "0.6"
    ensures r == "0.8" <==> tag == "location" || tag == "curation"
    ensures r == "0.75" <==> tag == "persona"
    ensures r == "0.7" <==> tag == "comparison" || tag == "directory"
    ensures r == "0.6" <==> Parse(tag) == Glossary || Parse(tag).Other?
  {
    if tag == "location" then "0.8"
    else if tag == "persona" then "0.75"
    else if tag == "curation" then "0.8"
    else if tag == "comparison" then "0.7"
    else if tag == "glossary" then "0.6"
    else if tag == "directory" then "0.7"
    else "0.6"
  }

  /** The sitemap entry of a generated page: its url, its playbook's priority, monthly. */
  function GeneratedEntry(p: Page): SitemapEntry {
    SitemapEntry(p.url, Priority(Name(p.playbook)), "monthly")
  }

  /** `allPages`: the hand-written pages first, then the generated ones in the given order. */
  function AllPages(generated: seq<Page>): (r: seq<SitemapEntry>)
    ensures |r| == 11 + |generated|
    ensures r[..11] == ExistingPages()
    ensures forall i :: 0 <= i < |generated| ==> r[11 + i] == GeneratedEntry(generated[i])
  {
    Listed(ExistingPages(), generated)
  }

  function Listed(existing: seq<SitemapEntry>, generated: seq<Page>): (r: seq<SitemapEntry>)
    ensures |r| == |existing| + |generated|
    ensures r[..|existing|] == existing
    ensures forall i :: 0 <= i < |generated| ==> r[|existing| + i] == GeneratedEntry(generated[i])
  {
    existing + seq(|generated|, i requires 0 <= i < |generated| => GeneratedEntry(generated[i]))
  }

  /** The `<loc>` element of an entry: the url under the site's base. */
  function Loc(e: SitemapEntry): string {
    "<loc>" + BaseUrl + e.url + "</loc>"
  }

  function LastMod(today: string): string {
    "<lastmod>" + today + "</lastmod>"
  }

  /** The part of a `<url>` element after the date. */
  function Closing(e: SitemapEntry): string {
    "\n    <changefreq>" + e.changefreq + "</changefreq>\n    <priority>" + e.priority + "</priority>\n  </url>"
  }

  const BlockOpen := "  <url>\n    "
  const Indent := "\n    "

  /** One `<url>` element, indented as the source writes it. */
  function UrlBlock(e: SitemapEntry, today: string): string {
    BlockOpen + Loc(e) + Indent + LastMod(today) + Closing(e)
  }

  function Blocks(entries: seq<SitemapEntry>, today: string): (r: seq<string>)
    ensures |r| == |entries|
    ensures forall i :: 0 <= i < |entries| ==> r[i] == UrlBlock(entries[i], today)
  {
    seq(|entries|, i requires 0 <= i < |entries| => UrlBlock(entries[i], today))
  }

  const XmlHead := "<?xml version=\"1.0\" encoding=\"UTF-8\"?>\n<urlset xmlns=\"http://www.sitemaps.org/schemas/sitemap/0.9\">\n"
  const XmlTail := "\n</urlset>\n"

  /** The whole document for a list of entries. */
  function Document(entries: seq<SitemapEntry>, today: string): (r: string)
    ensures IsPrefix(XmlHead, r) && r[|r| - |XmlTail|..] == XmlTail
    ensures |entries| == 0 ==> r == XmlHead + XmlTail
    ensures |entries| == 1 ==> r == XmlHead + UrlBlock(entries[0], today) + XmlTail
  {
    XmlHead + Join(Blocks(entries, today), "\n") + XmlTail
  }

  /** What `generateSitemap` writes, and the number of URLs it returns. */
  datatype SitemapOutput = SitemapOutput(xml: string, count: nat)

  function GenerateSitemap(generated: seq<Page>, today: string): (r: SitemapOutput)
    ensures r.count == 11 + |generated|
    ensures r.xml == Document(AllPages(generated), today)
  {
    var all := AllPages(generated);
    SitemapOutput(Document(all, today), |all|)
  }

  /** The document opens with the XML declaration and the sitemap namespace, and closes the url set. */
  lemma DocumentFrame(entries: seq<SitemapEntry>, today: string)
    ensures IsPrefix(XmlHead, Document(entries, today))
    ensures IsPrefix(XmlTail, Document(entries, today)[|Document(entries, today)| - |XmlTail|..])
  {
    var body := Join(Blocks(entries, today), "\n");
    var d := Document(entries, today);
    assert d[..|XmlHead|] == XmlHead;
    assert d[|d| - |XmlTail|..] == XmlTail;
  }

  /** A `<url>` element holds the entry's location and the day's date. */
  lemma BlockFields(e: SitemapEntry, today: string)
    ensures Includes(UrlBlock(e, today), Loc(e))
    ensures Includes(UrlBlock(e, today), LastMod(today))
  {
    var loc, date, rest := Loc(e), LastMod(today), Closing(e);
    var b := UrlBlock(e, today);
    assert b == BlockOpen + loc + (Indent + date + rest);
    IncludesInfix(BlockOpen, loc, Indent + date + rest);
    IncludesInfix(BlockOpen + loc + Indent, date, rest);
  }

  /** Every entry has its whole `<url>` element in the document. */
  lemma DocumentListsEntry(entries: seq<SitemapEntry>, today: string, i: nat)
    requires i < |entries|
    ensures Includes(Document(entries, today), UrlBlock(entries[i], today))
  {
    FramedJoinIncludes(XmlHead, Blocks(entries, today), "\n", XmlTail, i);
  }

  /**
   * Every generated page appears in the sitemap with its url under the base
   * and with the day's date.
   */
  lemma SitemapListsGenerated(generated: seq<Page>, today: string, j: nat)
    requires j < |generated|
    ensures Includes(GenerateSitemap(generated, today).xml, "<loc>" + BaseUrl + generated[j].url + "</loc>")
    ensures Includes(GenerateSitemap(generated, today).xml, LastMod(today))
  {
    var xml := GenerateSitemap(generated, today).xml;
    var e := GeneratedEntry(generated[j]);
    DocumentListsEntry(AllPages(generated), today, 11 + j);
    BlockFields(e, today);
    IncludesTrans(xml, UrlBlock(e, today), Loc(e));
    IncludesTrans(xml, UrlBlock(e, today), LastMod(today));
  }

  /** No hand-written page lies under the generated tree. */
  lemma ExistingOutsideGenerated()
    ensures forall i :: 0 <= i < 11 ==> !IsPrefix(UrlBase, ExistingPages()[i].url)
  {
    var r := ExistingPages();
    forall i | 0 <= i < 11 ensures !IsPrefix(UrlBase, r[i].url) {
      if 0 < i && |UrlBase| <= |r[i].url| {
        assert r[i].url[7] != 's' && UrlBase[7] == 's';
      }
    }
  }

  /** So the generated pages never repeat a url of the hand-written pages. */
  lemma GeneratedUrlsAreNew(pb: Playbook, slug: string, i: nat)
    requires i < 11
    ensures BuildUrl(pb, slug) != ExistingPages()[i].url
  {
    BuildUrlFilePath(pb, slug);
    var u := BuildUrl(pb, slug);
    assert u[..|UrlBase|] == UrlBase;
    ExistingOutsideGenerated();
  }

  /** Every page of the fixed `getStaticLinks` list (unused by the generator) is one of the hand-written pages the sitemap lists. */
  lemma StaticLinksListed(k: nat)
    requires k < |Linking.StaticLinks()|
    ensures exists i :: 0 <= i < 11 && ExistingPages()[i].url == Linking.StaticLinks()[k].url
  {
    var s, e := Linking.StaticLinks(), ExistingPages();
    var i := [1, 9, 10, 7, 2, 3, 4, 5, 6][k];
    assert e[i].url == s[k].url;
  }
}
