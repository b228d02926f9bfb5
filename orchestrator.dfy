/**
 * One run of the generator: reset the validator, generate every page,
 * register them all with a fresh linker, give each page its internal links
 * and splice the rendered links into its slot, validate the pages in order,
 * and, unless this is a dry run, write the pages, the sitemap and the
 * manifest. Writing is modelled by returning what would be written.
 */
module Orchestrator {
  import opened Wrappers
  import opened Strings
  import opened Slug
  import opened Pages
  import opened Html
  import opened Generators
  import Linking
  import Validation
  import Sitemap

  /** The `maxLinks` default `main` relies on. */
  const MaxLinks: nat := 8

  /** The registry the linker holds once every page is registered, in page order. */
  function Registry(pages: seq<Page>): (r: seq<Linking.Entry>)
    ensures |r| == |pages|
    ensures forall i :: 0 <= i < |pages| ==> r[i] == Linking.EntryOf(pages[i])
  {
    seq(|pages|, i requires 0 <= i < |pages| => Linking.EntryOf(pages[i]))
  }

  /** The links `getLinks` picks for a page. */
  function LinksFor(p: Page, registry: seq<Linking.Entry>): seq<Link> {
    Linking.Links(Linking.Selection(registry, p.slug, MaxLinks))
  }

  /** A page after the link pass: its links set, and the first links slot replaced by their rendering. */
  function Linked(p: Page, registry: seq<Linking.Entry>): (r: Page)
    ensures r.internalLinks == Some(LinksFor(p, registry)) && |r.internalLinks.value| <= MaxLinks
    ensures r == p.(internalLinks := r.internalLinks, htmlContent := r.htmlContent)
    ensures !Includes(p.htmlContent, Placeholder) ==> r.htmlContent == p.htmlContent
  {
    var links := LinksFor(p, registry);
    var block := InternalLinksHtml(Some(links));
    LinkedKeepsSlotless(p.htmlContent, block);
    p.(internalLinks := Some(links), htmlContent := ReplaceFirst(p.htmlContent, Placeholder, block))
  }

  /** Content without a links slot comes through the splice unchanged. */
  lemma LinkedKeepsSlotless(content: string, block: string)
    ensures !Includes(content, Placeholder) ==> ReplaceFirst(content, Placeholder, block) == content
  {
    if !Includes(content, Placeholder) {
      ReplaceFirstAbsent(content, Placeholder, block);
    }
  }

  /** Every page of a run after the link pass over the full registry. */
  function LinkAll(pages: seq<Page>): (r: seq<Page>)
    ensures |r| == |pages|
    ensures forall i :: 0 <= i < |pages| ==> r[i] == Linked(pages[i], Registry(pages))
  {
    seq(|pages|, i requires 0 <= i < |pages| => Linked(pages[i], Registry(pages)))
  }

  /** One more page through the link pass extends the linked prefix by its own entry. */
  lemma LinkedPrefixNext(done: seq<Page>, pages: seq<Page>, q: Page)
    requires |done| < |pages| && done == LinkAll(pages)[..|done|]
    requires q == Linked(pages[|done|], Registry(pages))
    ensures done + [q] == LinkAll(pages)[..|done| + 1]
  {
    var all := LinkAll(pages);
    assert all[|done|] == q;
    PrefixSnoc(done, all, q);
  }

  lemma PrefixSnoc<T>(done: seq<T>, all: seq<T>, q: T)
    requires |done| < |all| && done == all[..|done|] && q == all[|done|]
    ensures done + [q] == all[..|done| + 1]
  {
    assert all[..|done| + 1] == all[..|done|] + [all[|done|]];
  }

  /** A page that failed validation, with its errors. */
  datatype Issue = Issue(slug: string, errors: seq<Validation.ValidationError>)

  /** How many results failed, counted from the front. */
  function InvalidCount(results: seq<Validation.ValidationResult>): nat
    decreases |results|
  {
    if |results| == 0 then 0 else (if results[0].valid then 0 else 1) + InvalidCount(results[1..])
  }

  lemma {:induction false} InvalidCountAppend(a: seq<Validation.ValidationResult>, b: seq<Validation.ValidationResult>)
    ensures InvalidCount(a + b) == InvalidCount(a) + InvalidCount(b)
    decreases |a|
  {
    if |a| == 0 {
      assert a + b == b;
    } else {
      assert (a + b)[1..] == a[1..] + b;
      InvalidCountAppend(a[1..], b);
    }
  }

  /** The failed results, in validation order: one issue per invalid result. */
  function Issues(results: seq<Validation.ValidationResult>): (r: seq<Issue>)
    ensures |r| <= |results|
    ensures |r| == InvalidCount(results)
    ensures forall x :: x in r ==> exists i :: 0 <= i < |results| && !results[i].valid && x == Issue(results[i].slug, results[i].errors)
    ensures forall i :: 0 <= i < |results| && !results[i].valid ==> Issue(results[i].slug, results[i].errors) in r
    decreases |results|
  {
    if |results| == 0 then []
    else
      var n := |results| - 1;
      assert results == results[..n] + [results[n]];
      InvalidCountAppend(results[..n], [results[n]]);
      Issues(results[..n]) + Flagged(results[n])
  }

  /** A single result yields its issue exactly when it is invalid. */
  lemma IssuesOne(x: Validation.ValidationResult)
    ensures Issues([x]) == if x.valid then [] else [Issue(x.slug, x.errors)]
  {
    assert [x][..0] == [];
  }

  /** Issue collection distributes over concatenation, so issues keep the validation order. */
  lemma {:induction false} IssuesAppend(a: seq<Validation.ValidationResult>, b: seq<Validation.ValidationResult>)
    ensures Issues(a + b) == Issues(a) + Issues(b)
    decreases |b|
  {
    if |b| == 0 {
      assert a + b == a;
    } else {
      var n := |b| - 1;
      var init, x := b[..n], b[n];
      assert b == init + [x];
      assert a + b == (a + init) + [x];
      IssuesSnoc(a + init, x);
      IssuesSnoc(init, x);
      IssuesAppend(a, init);
      AppendAssoc(Issues(a), Issues(init), Flagged(x));
    }
  }

  /** The issue a single result contributes. */
  function Flagged(x: Validation.ValidationResult): seq<Issue> {
    if x.valid then [] else [Issue(x.slug, x.errors)]
  }

  /** Validating one more page adds that page's issue, if any, at the end. */
  lemma IssuesSnoc(results: seq<Validation.ValidationResult>, x: Validation.ValidationResult)
    ensures Issues(results + [x]) == Issues(results) + Flagged(x)
  {
    assert (results + [x])[..|results|] == results;
  }

  /** The issue of the invalid result at position i sits at the number of invalid results before it. */
  lemma IssueAt(results: seq<Validation.ValidationResult>, i: nat)
    requires i < |results| && !results[i].valid
    ensures InvalidCount(results[..i]) < |Issues(results)|
    ensures Issues(results)[InvalidCount(results[..i])] == Issue(results[i].slug, results[i].errors)
  {
    assert results == results[..i] + ([results[i]] + results[i + 1..]);
    IssuesAppend(results[..i], [results[i]] + results[i + 1..]);
    IssuesAppend([results[i]], results[i + 1..]);
    IssuesOne(results[i]);
  }

  /** A written page: where it goes and what it holds. */
  datatype OutputFile = OutputFile(filePath: string, content: string)

  function Files(pages: seq<Page>): (r: seq<OutputFile>)
    ensures |r| == |pages|
    ensures forall i :: 0 <= i < |pages| ==> r[i] == OutputFile(pages[i].filePath, pages[i].htmlContent)
  {
    seq(|pages|, i requires 0 <= i < |pages| => OutputFile(pages[i].filePath, pages[i].htmlContent))
  }

  /** One manifest row per page; a page without links counts zero. */
  datatype ManifestRow = ManifestRow(url: string, playbook: string, title: string, primaryKeyword: Option<string>, internalLinks: nat)

  function Manifest(pages: seq<Page>): (r: seq<ManifestRow>)
    ensures |r| == |pages|
    ensures forall i :: 0 <= i < |pages| ==> r[i].url == pages[i].url && r[i].internalLinks == Validation.LinkCount(pages[i])
    ensures forall i :: 0 <= i < |pages| ==>
      r[i].playbook == Name(pages[i].playbook) && r[i].title == pages[i].title && r[i].primaryKeyword == pages[i].primaryKeyword
  {
    seq(|pages|, i requires 0 <= i < |pages| =>
      ManifestRow(pages[i].url, Name(pages[i].playbook), pages[i].title, pages[i].primaryKeyword, Validation.LinkCount(pages[i])))
  }

  /** What a run leaves behind. A dry run reports the validator's statistics and writes nothing. */
  datatype Report = Report(
    pages: seq<Page>, validCount: nat, invalidCount: nat, issues: seq<Issue>,
    stats: Option<Validation.Stats>, files: seq<OutputFile>,
    sitemap: Option<Sitemap.SitemapOutput>, manifest: seq<ManifestRow>)

  /** `allPages.forEach(p => linker.register(p))` on a new linker. */
  method RegisterAll(pages: seq<Page>) returns (linker: Linking.Linker)
    ensures fresh(linker)
    ensures linker.pages == Registry(pages)
  {
    linker := new Linking.Linker();
    for i := 0 to |pages|
      invariant linker.pages == Registry(pages[..i])
    {
      linker.Register(pages[i]);
      assert pages[..i + 1] == pages[..i] + [pages[i]];
    }
    assert pages[..|pages|] == pages;
  }

  /** The body of the link pass for one page. */
  method LinkOne(linker: Linking.Linker, p: Page) returns (q: Page)
    ensures q == Linked(p, linker.pages)
  {
    var links := linker.GetLinks(p.slug, MaxLinks);
    var linksHtml := InternalLinksHtml(Some(links));
    q := p.(internalLinks := Some(links), htmlContent := ReplaceFirst(p.htmlContent, Placeholder, linksHtml));
  }

  /** The link pass: every page gets its links and its slot filled, against the full registry. */
  method LinkPages(linker: Linking.Linker, generated: seq<Page>) returns (pages: seq<Page>)
    requires linker.pages == Registry(generated)
    ensures pages == LinkAll(generated)
  {
    pages := [];
    for i := 0 to |generated|
      invariant |pages| == i
      invariant pages == LinkAll(generated)[..i]
    {
      var q := LinkOne(linker, generated[i]);
      LinkedPrefixNext(pages, generated, q);
      pages := pages + [q];
    }
    assert LinkAll(generated)[..|generated|] == LinkAll(generated);
  }

  /** The validation loop: every page in order, counting the valid ones and collecting the others. */
  method ValidateAll(v: Validation.Validator, pages: seq<Page>) returns (validCount: nat, invalidCount: nat, issues: seq<Issue>)
    modifies v
    requires v.State() == Validation.Empty
    ensures v.State() == Validation.SeenAfter(pages, Validation.Empty)
    ensures issues == Issues(Validation.ValidateRun(pages, Validation.Empty))
    ensures invalidCount == |issues| && validCount + invalidCount == |pages|
    ensures invalidCount == InvalidCount(Validation.ValidateRun(pages, Validation.Empty))
  {
    validCount, invalidCount := 0, 0;
    issues := [];
    for i := 0 to |pages|
      invariant v.State() == Validation.SeenAfter(pages[..i], Validation.Empty)
      invariant issues == Issues(Validation.ValidateRun(pages[..i], Validation.Empty))
      invariant invalidCount == |issues|
      invariant validCount + invalidCount == i
    {
      var result := v.ValidatePage(pages[i]);
      assert pages[..i + 1][..i] == pages[..i];
      assert Validation.ValidateRun(pages[..i + 1], Validation.Empty) == Validation.ValidateRun(pages[..i], Validation.Empty) + [result];
      IssuesSnoc(Validation.ValidateRun(pages[..i], Validation.Empty), result);
      if result.valid {
        validCount := validCount + 1;
      } else {
        invalidCount := invalidCount + 1;
        issues := issues + [Issue(result.slug, result.errors)];
      }
    }
    assert pages[..|pages|] == pages;
  }

  /** The write loop, modelled by the list of files it writes. */
  method WriteAll(pages: seq<Page>) returns (files: seq<OutputFile>)
    ensures files == Files(pages)
  {
    files := [];
    for i := 0 to |pages|
      invariant files == Files(pages[..i])
    {
      files := files + [OutputFile(pages[i].filePath, pages[i].htmlContent)];
    }
    assert pages[..|pages|] == pages;
  }

  /** Everything `main` does after generation: link, validate, then report or write. */
  method Process(generated: seq<Page>, today: string, dryRun: bool, v: Validation.Validator) returns (report: Report)
    modifies v
    ensures report.pages == LinkAll(generated)
    ensures v.State() == Validation.SeenAfter(report.pages, Validation.Empty)
    ensures report.issues == Issues(Validation.ValidateRun(report.pages, Validation.Empty))
    ensures report.invalidCount == |report.issues|
    ensures report.invalidCount == InvalidCount(Validation.ValidateRun(report.pages, Validation.Empty))
    ensures report.validCount + report.invalidCount == |report.pages|
    ensures dryRun ==> report.stats == Some(Validation.Stats(|v.seenSlugs|, |v.seenTitles|, |v.seenKeywords|))
    ensures dryRun ==> report.files == [] && report.sitemap.None? && report.manifest == []
    ensures !dryRun ==> report.stats.None? && report.files == Files(report.pages)
    ensures !dryRun ==> report.sitemap == Some(Sitemap.GenerateSitemap(report.pages, today))
    ensures !dryRun ==> report.manifest == Manifest(report.pages)
  {
    v.Reset();
    var linker := RegisterAll(generated);
    var pages := LinkPages(linker, generated);
    var validCount, invalidCount, issues := ValidateAll(v, pages);
    if dryRun {
      var stats := v.GetStats();
      report := Report(pages, validCount, invalidCount, issues, Some(stats), [], None, []);
    } else {
      var files := WriteAll(pages);
      report := Report(pages, validCount, invalidCount, issues, None, files, Some(Sitemap.GenerateSitemap(pages, today)), Manifest(pages));
    }
  }

  /**
   * `main`, with the input files, the date and the dry-run flag as
   * parameters. The validator is reset before generation, which touches it
   * not at all, so resetting inside `Process` is the same run.
   */
  method Run(input: Inputs, today: string, dryRun: bool, v: Validation.Validator) returns (report: Report)
    modifies v
    ensures report.pages == LinkAll(Generated(input))
    ensures v.State() == Validation.SeenAfter(report.pages, Validation.Empty)
    ensures report.issues == Issues(Validation.ValidateRun(report.pages, Validation.Empty))
    ensures report.invalidCount == |report.issues|
    ensures report.invalidCount == InvalidCount(Validation.ValidateRun(report.pages, Validation.Empty))
    ensures report.validCount + report.invalidCount == |report.pages|
    ensures dryRun ==> report.stats == Some(Validation.Stats(|v.seenSlugs|, |v.seenTitles|, |v.seenKeywords|))
    ensures dryRun ==> report.files == [] && report.sitemap.None? && report.manifest == []
    ensures !dryRun ==> report.stats.None? && report.files == Files(report.pages)
    ensures !dryRun ==> report.sitemap == Some(Sitemap.GenerateSitemap(report.pages, today))
    ensures !dryRun ==> report.manifest == Manifest(report.pages)
  {
    var generated := GenerateAll(input);
    report := Process(generated, today, dryRun, v);
  }

  // ---------------------------------------------------------------- what a run guarantees

  /** The registry has one entry per slug exactly when the run's slugs are distinct. */
  lemma RegistryDistinctIff(pages: seq<Page>)
    ensures Linking.RegistryDistinct(Registry(pages)) <==>
      forall i, j :: 0 <= i < j < |pages| ==> pages[i].slug != pages[j].slug
  {
    var reg := Registry(pages);
    assert forall i :: 0 <= i < |pages| ==> reg[i].slug == pages[i].slug;
  }

  /**
   * The link pass changes only the links and the content, and it puts the
   * rendered links where the slot was, provided the text before the slot
   * does not itself hold the placeholder.
   */
  lemma LinkedSplice(p: Page, registry: seq<Linking.Entry>, head: string, tail: string)
    requires p.htmlContent == head + Placeholder + tail
    requires NoMatchBefore(p.htmlContent, Placeholder, |head|)
    ensures var q := Linked(p, registry);
      q.htmlContent == head + InternalLinksHtml(Some(LinksFor(p, registry))) + tail
      && q.internalLinks == Some(LinksFor(p, registry))
      && q == p.(internalLinks := q.internalLinks, htmlContent := q.htmlContent)
  {
    var s := p.htmlContent;
    assert s[|head|..][..|Placeholder|] == Placeholder;
    ReplaceFirstAt(s, Placeholder, InternalLinksHtml(Some(LinksFor(p, registry))), |head|);
    assert s[..|head|] == head && s[|head| + |Placeholder|..] == tail;
  }

  /**
   * Every link of a page points to another page of the same run: it carries
   * the title and url of the page at position `k`, whose slug differs.
   */
  lemma LinkSource(pages: seq<Page>, i: nat, l: Link) returns (k: nat)
    requires i < |pages|
    requires l in LinksFor(pages[i], Registry(pages))
    ensures k < |pages| && pages[k].slug != pages[i].slug
    ensures l.url == pages[k].url && l.title == pages[k].title
  {
    var reg := Registry(pages);
    var sel := Linking.Selection(reg, pages[i].slug, MaxLinks);
    var y := LinkedCandidate(sel, l);
    Linking.SelectionSound(reg, pages[i].slug, MaxLinks);
    k := EntryPosition(pages, y.entry);
  }

  /** The candidate a returned link was made from. */
  lemma LinkedCandidate(sel: seq<Linking.Scored>, l: Link) returns (y: Linking.Scored)
    requires l in Linking.Links(sel)
    ensures y in sel && l == Linking.LinkOf(y)
  {
    var links := Linking.Links(sel);
    var m :| 0 <= m < |links| && links[m] == l;
    y := sel[m];
  }

  /** The page a registry entry was registered from. */
  lemma EntryPosition(pages: seq<Page>, e: Linking.Entry) returns (k: nat)
    requires e in Registry(pages)
    ensures k < |pages| && e == Linking.EntryOf(pages[k])
  {
    var reg := Registry(pages);
    var k' :| 0 <= k' < |reg| && reg[k'] == e;
    k := k';
  }

  /** When no two pages share a url under different slugs, no page links to its own url. */
  lemma NoSelfLinks(pages: seq<Page>, i: nat)
    requires i < |pages|
    requires forall j, k :: 0 <= j < |pages| && 0 <= k < |pages| && pages[j].url == pages[k].url ==> pages[j].slug == pages[k].slug
    ensures forall l :: l in LinksFor(pages[i], Registry(pages)) ==> l.url != pages[i].url
  {
    forall l | l in LinksFor(pages[i], Registry(pages)) ensures l.url != pages[i].url {
      var k := LinkSource(pages, i, l);
    }
  }

  /**
   * With distinct slugs, every page gets `min(8, n - 1)` links from a run of
   * `n` pages; so from four pages on, every page has the three links
   * validation asks for.
   */
  lemma LinkCountOfRun(pages: seq<Page>, i: nat)
    requires i < |pages|
    requires forall j, k :: 0 <= j < k < |pages| ==> pages[j].slug != pages[k].slug
    ensures |LinksFor(pages[i], Registry(pages))| == if MaxLinks < |pages| - 1 then MaxLinks else |pages| - 1
    ensures |pages| >= 4 ==> Validation.LinkCount(LinkAll(pages)[i]) >= 3
  {
    var reg := Registry(pages);
    RegistryDistinctIff(pages);
    Linking.FindFirst(reg, pages[i].slug, i);
    Linking.SelectionLength(reg, pages[i].slug, MaxLinks);
  }

  /** So a run of at least four pages with distinct slugs never reports too few links. */
  lemma NoInsufficientLinks(pages: seq<Page>, i: nat)
    requires 4 <= |pages| && i < |pages|
    requires forall j, k :: 0 <= j < k < |pages| ==> pages[j].slug != pages[k].slug
    ensures forall n :: Validation.InsufficientInternalLinks(n) !in Validation.ValidateRun(LinkAll(pages), Validation.Empty)[i].errors
  {
    var linked := LinkAll(pages);
    LinkCountOfRun(pages, i);
    Validation.ValidateRunAt(linked, Validation.Empty, i);
    Validation.CheckLinks(linked[i], Validation.SeenAfter(linked[..i], Validation.Empty));
  }

  /** Every page a link points to is listed in the run's sitemap. */
  lemma LinkTargetsInSitemap(pages: seq<Page>, i: nat, l: Link, today: string)
    requires i < |pages|
    requires l in LinksFor(pages[i], Registry(pages))
    ensures Includes(Sitemap.GenerateSitemap(LinkAll(pages), today).xml, "<loc>" + Sitemap.BaseUrl + l.url + "</loc>")
  {
    var k := LinkSource(pages, i, l);
    Sitemap.SitemapListsGenerated(LinkAll(pages), today, k);
  }
}
