# Kangaroo House pSEO generator, modelled in Dafny

The Kangaroo House site (PG accommodation near colleges in Delhi) builds its
programmatic-SEO pages with a small Node.js generator. Five playbooks —
location, persona, glossary, comparison and curation — each turn a list of
JSON records into page descriptors. The generator then runs these steps:

- it registers every descriptor with an internal-linking engine;
- it asks the engine for up to eight related pages per page;
- it splices the "related pages" section into each page's HTML;
- it validates every page against duplicate, thin-content and missing-field rules;
- it writes the pages, an XML sitemap and a manifest, unless it is a validation dry run.

This project models that core and proves what each step promises.

| module | models | flavour |
|---|---|---|
| `Slug` (slug.dfy) | `toSlug`, `buildUrl`, `buildFilePath` | pure functions |
| `Validation` (validator.dfy) | the validator's three seen-sets, `resetValidation`, `validatePage`, `getStats` | a `Validator` class over specification functions |
| `Linking` (linker.dfy) | the `Linker` class: `register`, `getLinks` (scoring, sorting, sibling/cross picks, the fill loop), `getStaticLinks` | a class with one `seq` field; selection specified by functions |
| `Sitemap` (sitemap.dfy) | `generateSitemap`: entries, priorities, the XML document, the URL count | pure functions, date as a parameter |
| `Html` (html.dfy) | `escHtml`, `internalLinksHtml`, `breadcrumbs` | pure functions |
| `Generators` (generators.dfy) | the five playbook generators and their lookup tables | loops as methods against functions |
| `Orchestrator` (orchestrator.dfy) | `main`: generation, registration, link resolution, validation, dry run, writes, sitemap, manifest | methods against functions |
| `Pages`, `Strings`, `Wrappers` | the page descriptor, shared string helpers, `Option` | datatypes and helpers |

Notes on the code as written:

- **Linker: keyword overlap.** The overlap term counts the CANDIDATE's keywords that contain, or are contained in, some keyword of the current page.
  - It does not count pairs of keywords.
  - An empty keyword on the current page matches every candidate keyword (`Linking.OverlapEmptyKeyword`).
- **Linker: the rule comment.** The comment before `getLinks` promises "at least 2 siblings, at least 2 cross-playbook, minimum 5 links". The code does not enforce this; it takes up to three of each and then fills. The model follows the code.
- **Validator: duplicates.** Only the second and later occurrences of a slug, title or primary keyword are flagged (`Validation.DuplicateSlugIffEarlier`).
- **Validator: reset.** `main` resets the validator before generating anything. Nothing in between touches it, so this is the same as resetting just before validation.
- **URLs.** `buildUrl` gives location, persona, curation and comparison pages one shared directory. A location slug equal to a persona slug therefore yields the same URL (`Slug.BuildUrlSharedDirectory`). Within one playbook the URL determines the slug (`Slug.BuildUrlInjective`).
- **Curation ranks.** Each listing's rank is its position in the record's `pgs` list, counted before unknown ids are dropped. An unknown id therefore leaves a gap in the numbering (`Generators.RankGapExample`).
- **Thin content.** Every generated page carries the `{{INTERNAL_LINKS}}` slot. A run whose pages have distinct slugs and number at least four gives every page at least three links, so "Insufficient internal links" never fires (`Orchestrator.NoInsufficientLinks`).

## Model

| member | source | states |
|---|---|---|
| Slug.Parse | pseo/utils/slug.js:16-24 | Reading a playbook tag and printing it back gives the same tag. |
| Slug.ParseName | pseo/utils/slug.js:16-24 | Tags and playbooks correspond one to one: every playbook, known or not, is read back from its own tag. |
| Slug.ToSlug | pseo/utils/slug.js:4-12 | The result is a slug: only `a-z`, `0-9` and `-`, no leading, trailing or doubled dash. |
| Slug.ToSlugIdempotent | pseo/utils/slug.js:4-12 | Slugifying a slug changes nothing: `toSlug(toSlug(t)) == toSlug(t)`. |
| Slug.ToSlugFixesSlugs | pseo/utils/slug.js:4-12 | Every string that is already a slug is a fixed point of `toSlug`. |
| Slug.ToSlugAmpersand | pseo/utils/slug.js:7-10 | For non-empty slugs `a` and `b`, `a & b` becomes `a-and-b`. |
| Slug.ToSlugExample | pseo/utils/slug.js:4-12 | "Paying Guest & Co." becomes "paying-guest-and-co". |
| Slug.StripDisallowedChars | pseo/utils/slug.js:8 | After the strip only `a-z`, `0-9`, whitespace and `-` remain. |
| Slug.StripDisallowedConcat | pseo/utils/slug.js:8 | The strip works character by character, so it distributes over concatenation. |
| Slug.ExpandAmpersandsConcat | pseo/utils/slug.js:7 | The `&` to `and` replacement distributes over concatenation. |
| Slug.SquashRunsChars | pseo/utils/slug.js:9-10 | Collapsing runs of whitespace (or dashes) into one `-` leaves only slug characters. |
| Slug.SquashRunsNoDoubleDash | pseo/utils/slug.js:9-10 | After the collapse no two dashes are adjacent. |
| Slug.SquashRunsIsolated | pseo/utils/slug.js:9 | When no two whitespace characters are adjacent, each one becomes a single `-` in place and the length is kept. |
| Slug.TrimResult | pseo/utils/slug.js:11 | Trimming one leading and one trailing dash from a collapsed string yields a slug. |
| Strings.LowerAscii | pseo/utils/slug.js:6 | Lower-casing keeps the length and maps each character on its own. |
| Strings.LowerAsciiIdentity | pseo/utils/slug.js:6 | A string without upper-case letters is unchanged by lower-casing. |
| Slug.BuildFilePath | pseo/utils/slug.js:27-33 | Read by the tag name: glossary pages go under `glossary/`, directory pages under `directory/`, every other tag at the top. |
| Slug.BuildUrl | pseo/utils/slug.js:14-25 | Read by the tag name: glossary pages get `/pages/seo/glossary/<slug>.html`, directory pages `/pages/seo/directory/<slug>.html`, every other tag (the four table entries and the default) `/pages/seo/<slug>.html`. |
| Slug.BuildUrlFilePath | pseo/utils/slug.js:14-33 | For every playbook, the URL is `/pages/seo/` followed by the file path. |
| Slug.BuildFilePathFolder | pseo/utils/slug.js:27-33 | The file path is the playbook's folder, the slug and `.html`. |
| Slug.BuildUrlInjective | pseo/utils/slug.js:14-25 | Within one playbook, different slugs give different URLs. |
| Slug.SameUrlSamePath | pseo/utils/slug.js:14-33 | Two pages with the same URL are written to the same file. |
| Slug.BuildUrlSharedDirectory | pseo/utils/slug.js:17-21 | Location and persona pages share a URL directory; glossary pages have their own. |
| Slug.SlugHasNoSlash | pseo/utils/slug.js:4-12 | A slug holds no `/`. |
| Slug.FolderOfPath | pseo/utils/slug.js:27-33 | The directory part of a file path is the playbook's folder. |
| Slug.BuildUrlDistinctFolders | pseo/utils/slug.js:14-33 | For slash-free slugs, equal URLs mean equal slugs and equal folders. |
| Validation.Outcomes | pseo/utils/validator.js:19-53 | A page goes through exactly nine checks. |
| Validation.Check | pseo/utils/validator.js:16-60 | The result carries the page's slug, and it is valid exactly when the error list is empty. |
| Validation.ErrorsByKind | pseo/utils/validator.js:16-60 | An error is reported exactly when its check failed with that error; the number of errors is the number of failed checks. |
| Validation.FailuresOrdered | pseo/utils/validator.js:19-53 | When check i only produces errors of kind i, the failures come out in strictly increasing kind. |
| Validation.ErrorsInCheckOrder | pseo/utils/validator.js:19-53 | The errors of a page are reported in the order the checks run. |
| Validation.CheckDuplicates | pseo/utils/validator.js:19-35 | Duplicate slug and duplicate title are reported exactly when already seen. Duplicate keyword is reported exactly when the keyword is truthy and already seen. |
| Validation.MinContentLength | pseo/utils/validator.js:39 | The minimum is 3000 exactly for the glossary tag, 5000 for every other. |
| Validation.CheckContent | pseo/utils/validator.js:37-42 | Content too short is reported exactly when the content is under 3000 characters (glossary) or 5000 (otherwise). It carries those two numbers. |
| Validation.CheckRequired | pseo/utils/validator.js:44-48 | Each of the four missing-field errors is reported exactly when its field is empty. |
| Validation.CheckLinks | pseo/utils/validator.js:50-53 | Insufficient links is reported exactly when links are absent or fewer than three, with the actual count. |
| Validation.FailedCountBound | pseo/utils/validator.js:55-59 | There are at most nine errors, and none exactly when no check failed. |
| Validation.PushPageChecks | pseo/utils/validator.js:37-53 | Given the errors of the three uniqueness checks, it appends those of the remaining six in source order. |
| Validation.Record | pseo/utils/validator.js:23-35 | The slug and title are added to the seen sets; the primary keyword is added only when truthy. |
| Validation.RecordGrowsByAtMostOne | pseo/utils/validator.js:23-35 | Each seen-set grows by at most one per page. |
| Validation.ValidateRun | pseo/utils/validator.js:16-60 | Validating a run gives one result per page. |
| Validation.ValidateRunAt | pseo/utils/validator.js:16-60 | The i-th result is the check of page i against what the earlier pages recorded. |
| Validation.SeenSlugsAfterRun | pseo/utils/validator.js:20-23 | After a run the seen slugs are the earlier ones plus every page's slug. |
| Validation.DuplicateSlugIffEarlier | pseo/utils/validator.js:20-23 | From a reset validator, page i is flagged as a duplicate slug exactly when an earlier page has its slug. |
| Validation.StatsCountDistinctSlugs | pseo/utils/validator.js:62-68 | After a run from reset, the slug count in the stats is the number of distinct slugs. |
| Validation.Validator.constructor | pseo/utils/validator.js:6-8 | The three sets start empty. |
| Validation.Validator.Reset | pseo/utils/validator.js:10-14 | All three sets are cleared. |
| Validation.Validator.ValidatePage | pseo/utils/validator.js:16-60 | Returns the check against the sets as they were before, and updates the sets with the page. |
| Validation.Validator.GetStats | pseo/utils/validator.js:62-68 | Returns the sizes of the three sets. |
| Linking.OrNull | pseo/utils/linker.js:18-20 | `x \|\| null`: a value is kept exactly when it is truthy. |
| Linking.EntryOf | pseo/utils/linker.js:11-22 | The entry copies slug, title, playbook and url; keywords default to the empty list; location, gender and college are kept when truthy and are null exactly when falsy. |
| Linking.Find | pseo/utils/linker.js:33-34 | Nothing is found exactly when no entry has the slug; a found entry is in the registry with that slug. |
| Linking.FindFirst | pseo/utils/linker.js:33 | The entry found is the first one with the slug. |
| Linking.OverlapBound | pseo/utils/linker.js:51-53 | The keyword overlap is at most the candidate's keyword count. |
| Linking.OverlapSetOnly | pseo/utils/linker.js:51-53 | The overlap depends only on the set of the current page's keywords. |
| Linking.OverlapEmptyKeyword | pseo/utils/linker.js:51-53 | An empty keyword on the current page makes every candidate keyword count. |
| Linking.Score | pseo/utils/linker.js:38-56 | A score lies between 1 and 8 plus the keyword count; a sibling scores at least 2. |
| Linking.ScoreWithoutAffinity | pseo/utils/linker.js:38-56 | Without location, gender or college, the score is 2 for a sibling (1 otherwise) plus the overlap. |
| Linking.Others | pseo/utils/linker.js:36-37 | The filter keeps exactly the registry entries whose slug is not the current one. |
| Linking.OthersOne | pseo/utils/linker.js:36-37 | A single entry is kept exactly when its slug differs. |
| Linking.OthersAppend | pseo/utils/linker.js:36-37 | The filter distributes over concatenation, so it keeps registration order. |
| Linking.Candidates | pseo/utils/linker.js:36-56 | One scored candidate per other entry, in registry order, each with its score. |
| Linking.OthersCount | pseo/utils/linker.js:36-37 | With distinct slugs, the filter removes exactly the current page when it is registered. |
| Linking.OthersDistinct | pseo/utils/linker.js:36-37 | Filtering keeps slugs distinct. |
| Linking.CandidatesDistinct | pseo/utils/linker.js:36-56 | The candidates have distinct slugs, and there are as many as the registry minus the current page. |
| Linking.SortByScore | pseo/utils/linker.js:57 | Sorting keeps the length. |
| Linking.SortByScoreSorted | pseo/utils/linker.js:57 | The sorted list is non-increasing by score and a permutation of the input. |
| Linking.SortByScoreStable | pseo/utils/linker.js:57 | The sort is stable: candidates of equal score keep their order. |
| Linking.SortByScoreDistinct | pseo/utils/linker.js:57 | Sorting keeps slugs distinct. |
| Linking.ByPlaybook | pseo/utils/linker.js:60-61 | The sibling and cross-playbook filters keep exactly the candidates of the requested kind. |
| Linking.ByPlaybookOne | pseo/utils/linker.js:60-61 | A single candidate is kept exactly when its playbook test matches. |
| Linking.ByPlaybookAppend | pseo/utils/linker.js:60-61 | The filters distribute over concatenation, so they keep the ranked order. |
| Linking.ByPlaybookSorted | pseo/utils/linker.js:60-61 | Filtering a sorted list keeps it sorted. |
| Linking.ByPlaybookDistinct | pseo/utils/linker.js:60-61 | Filtering keeps slugs distinct. |
| Linking.PicksOutrankTheRest | pseo/utils/linker.js:57-61 | The three siblings (or cross pages) picked score at least as high as every later one of their kind. |
| Linking.Fresh | pseo/utils/linker.js:65-72 | The fill takes no more than the candidates, and only candidates whose slug is not yet used. |
| Linking.FreshDistinct | pseo/utils/linker.js:65-72 | The fill never takes the same slug twice. |
| Linking.FreshCovers | pseo/utils/linker.js:65-72 | Together with the used slugs, the filled slugs cover every candidate's slug. |
| Linking.FillDistinct | pseo/utils/linker.js:62-72 | The picks followed by the fill have distinct slugs. |
| Linking.FillCovers | pseo/utils/linker.js:62-72 | Without the cut-off, picks plus fill cover exactly the candidates' slugs. |
| Linking.FillLength | pseo/utils/linker.js:62-72 | Without the cut-off, picks plus fill are exactly as many as the candidates. |
| Linking.Fill | pseo/utils/linker.js:64-74 | The loop with its early `break` yields, up to `maxLinks`, the picks followed by the first unused candidates. |
| Linking.Links | pseo/utils/linker.js:74-78 | Each selected candidate becomes its title, url and playbook, in order. |
| Linking.RankedMember | pseo/utils/linker.js:36-57 | A ranked candidate is another registered page carrying its score. |
| Linking.RankedDistinct | pseo/utils/linker.js:36-57 | With distinct registered slugs, the ranked candidates have distinct slugs and number the registry minus the current page. |
| Linking.Selection | pseo/utils/linker.js:32-79 | At most `maxLinks` pages are selected, and none for an unregistered slug. |
| Linking.SelectionSound | pseo/utils/linker.js:32-79 | At most `maxLinks` pages are selected, none of them the current page, each registered and carrying its score. |
| Linking.SelectionFromRanked | pseo/utils/linker.js:32-79 | Every selected page is one of the ranked candidates. |
| Linking.SelectionDistinct | pseo/utils/linker.js:32-79 | With distinct registered slugs, no page is linked twice. |
| Linking.SelectionLength | pseo/utils/linker.js:32-79 | With distinct registered slugs, a registered page gets min(`maxLinks`, registry size minus one) links. |
| Linking.SelectionStartsPreferred | pseo/utils/linker.js:59-74 | The selection starts with the sibling and cross picks, cut at `maxLinks`. |
| Linking.RegisterKeepsDistinct | pseo/utils/linker.js:11-22 | Registering a new slug keeps the registry's slugs distinct. |
| Linking.FindAfterRegister | pseo/utils/linker.js:11-34 | After registering, a lookup of the new slug finds the earlier entry if any, else the new one. |
| Linking.StaticLinks | pseo/utils/linker.js:82-94 | The fixed list `getStaticLinks` returns (unused by the generator) has nine links. |
| Linking.Linker.constructor | pseo/utils/linker.js:7-9 | A new linker has an empty registry. |
| Linking.Linker.Register | pseo/utils/linker.js:11-22 | Registering appends the page's entry to the registry. |
| Linking.Linker.GetLinks | pseo/utils/linker.js:32-79 | Returns the links of the selection; no links for an unregistered slug; never more than `maxLinks`. |
| Linking.Linker.GetStaticLinks | pseo/utils/linker.js:82-94 | Returns the nine static links. |
| Sitemap.ExistingPages | pseo/utils/sitemap.js:13-25 | The eleven hand-written site pages. |
| Sitemap.ExistingOutsideGenerated | pseo/utils/sitemap.js:13-25 | No hand-written page lies under `/pages/seo`. |
| Sitemap.GeneratedUrlsAreNew | pseo/utils/sitemap.js:13-25 | No generated URL repeats a hand-written page's URL. |
| Sitemap.StaticLinksListed | pseo/utils/linker.js:82-94 | Every link of the fixed `getStaticLinks` list (unused by the generator) points to a hand-written page that the sitemap lists. |
| Sitemap.Priority | pseo/utils/sitemap.js:28-41 | Location and curation get 0.8, persona 0.75, comparison and directory 0.7, glossary and every unknown tag 0.6, each exactly for those tags. |
| Sitemap.AllPages | pseo/utils/sitemap.js:37-44 | The hand-written pages come first, then one monthly entry per generated page, in order. |
| Sitemap.Blocks | pseo/utils/sitemap.js:47-52 | One `<url>` element per entry, in order. |
| Sitemap.BlockFields | pseo/utils/sitemap.js:47-52 | Each element holds the entry's `<loc>` and the day's `<lastmod>`. |
| Sitemap.Document | pseo/utils/sitemap.js:54-58 | The document opens with the XML declaration and the urlset and closes it; no entries give the bare frame, one entry its element inside the frame. |
| Sitemap.DocumentFrame | pseo/utils/sitemap.js:54-58 | The document opens with the XML declaration and the urlset, and closes the urlset. |
| Sitemap.DocumentListsEntry | pseo/utils/sitemap.js:47-58 | Every entry's whole element appears in the document. |
| Sitemap.GenerateSitemap | pseo/utils/sitemap.js:37-62 | The returned count is 11 plus the number of generated pages, and the XML is the document of all entries. |
| Sitemap.SitemapListsGenerated | pseo/utils/sitemap.js:37-58 | Every generated page's URL, under the base URL, appears in the sitemap along with the date. |
| Html.EscHtml | pseo/generate.js:111-113 | Escaping `&` first and then `<`, `>` and `"` equals replacing each character by its entity on its own; the result holds no `<`, `>` or `"`, is never shorter, and is empty for an absent or empty value. |
| Html.ChainPerChar | pseo/generate.js:112 | The chain of four global replacements, `&` first, escapes each character on its own. |
| Html.EscapeCharsSafe | pseo/generate.js:111-113 | Escaped text holds no `<`, `>` or `"` and is never shorter than the input. |
| Html.UnescapeEscape | pseo/generate.js:111-113 | Reading the entities back recovers the original text. |
| Html.EscHtmlInjective | pseo/generate.js:111-113 | Different texts escape differently. |
| Html.ReplaceAllAppend | pseo/generate.js:112 | A global one-character replacement distributes over concatenation. |
| Html.ReplaceAllAbsent | pseo/generate.js:112 | A global replacement leaves text without the character unchanged. |
| Html.TagText | pseo/generate.js:121 | The card tag is never empty: it is the playbook name, or "Guide" when that is empty. |
| Html.Cards | pseo/generate.js:120-123 | One card per link, in order. |
| Html.InternalLinksHtml | pseo/generate.js:115-127 | The section is empty exactly when the links are absent or empty; otherwise it opens with the section head and ends with its close. |
| Html.InternalLinksShape | pseo/generate.js:115-127 | The section holds each link's card. |
| Html.InternalLinksOrder | pseo/generate.js:115-127 | Cards appear in link order with one separator between neighbours, and the length says so. |
| Html.Crumbs | pseo/generate.js:139-142 | The last item is rendered as the current page, every earlier one as a link. |
| Html.Breadcrumbs | pseo/generate.js:138-144 | The trail opens with the breadcrumb nav and ends with its close. |
| Html.BreadcrumbsLength | pseo/generate.js:138-144 | A trail of n items holds n - 1 separators inside the nav wrapper. |
| Html.BreadcrumbsItems | pseo/generate.js:138-144 | The trail shows the last item as plain text and links every earlier item. |
| Generators.FindCollege | pseo/generate.js:183-186 | Finds a college with the id, or reports that none has it. |
| Generators.FindCollegeFirst | pseo/generate.js:183-186 | The college found is the first one with the id. |
| Generators.FindTerm | pseo/generate.js:342-346 | Finds a glossary term with the id, or reports that none has it. |
| Generators.FindTermFirst | pseo/generate.js:342-346 | The term found is the first one with the id. |
| Generators.Resolve | pseo/generate.js:164-173 | At most one value per id; every value some id resolves to is kept, and every kept value is some id's lookup. |
| Generators.ResolveAppend | pseo/generate.js:164-173 | Resolving ids and dropping unknown ones distributes over concatenation. |
| Generators.ResolveMembers | pseo/generate.js:164-173 | A value is resolved exactly when some id looks it up. |
| Generators.ResolveAll | pseo/generate.js:164-173 | When every id is known, all of them resolve, in order. |
| Generators.ResolveNone | pseo/generate.js:164-173 | When no id is known, nothing resolves. |
| Generators.Listings | pseo/generate.js:489-500 | At most one card per id, ranked within the list's positions; when every id is known, card i is ranked i + 1 with id i's PG. |
| Generators.ListingsPositions | pseo/generate.js:489-500 | Each listing's rank is its id's position in the list, counted from one. |
| Generators.ListingsIncrease | pseo/generate.js:489-500 | Listing ranks strictly increase. |
| Generators.ListingsResolve | pseo/generate.js:489-500 | The listings are exactly the known PGs, in order. |
| Generators.RankGapExample | pseo/generate.js:489-500 | An unknown first id leaves one listing ranked #2, with no #1. |
| Generators.PersonaMeta | pseo/generate.js:270 | The persona meta is as long as the title, a dash, min(130, description length) characters and an ellipsis. |
| Generators.ComparisonMeta | pseo/generate.js:407 | The comparison meta is min(150, introduction length) characters plus an ellipsis long. |
| Generators.GlossaryMeta | pseo/generate.js:336 | The glossary meta is the first min(155, length) characters of the short definition, and the whole definition when it fits. |
| Generators.TruncatedMetas | pseo/generate.js:270 | The persona and comparison metas keep exactly the first min(130, length) or min(150, length) characters of their text, and end in `...`. |
| Generators.Article | pseo/generate.js:236-240 | Every article body holds the `{{INTERNAL_LINKS}}` slot. |
| Generators.FirstKeyword | pseo/generate.js:321 | `keywords[0]` is defined exactly when the list is non-empty. |
| Generators.LocationPage | pseo/generate.js:155-262 | A location page is placed by `buildUrl`/`buildFilePath`, unlinked and holds the slot; its slug is `pg-near-` plus the id and its location the id; its title carries the brand suffix, its meta is the location meta, and its keywords are "PG near", "hostel" plus the name and "PG" plus the city, the first being the primary one. |
| Generators.PersonaPage | pseo/generate.js:265-327 | A persona page is placed, unlinked and keeps the record's slug; its title carries the brand suffix, its heading is the title, and its meta is the truncated persona meta; it carries the record's keywords with the first as primary, and its gender; it has no location. |
| Generators.GlossaryPage | pseo/generate.js:330-398 | A glossary page is placed, unlinked and keeps the record's slug; its meta is the truncated short definition; its keywords are the lower-cased term, plus " meaning" and " in PG" forms, and its primary keyword is "what is " plus the lower-cased term; its title is the term's guide title with the brand suffix. |
| Generators.ComparisonPage | pseo/generate.js:401-467 | A comparison page is placed, unlinked and keeps the record's slug; its title carries the brand suffix, its heading is the title, and its meta is the truncated introduction; it carries the record's keywords with the first as primary. |
| Generators.CurationPage | pseo/generate.js:470-544 | A curation page is placed, unlinked, and keeps the record's slug and location; its title carries the brand suffix, its meta is the curation meta, and its sole keyword and primary keyword are the lower-cased title. |
| Generators.PlacedUnderTree | pseo/utils/slug.js:14-33 | A placed page's URL is `/pages/seo/` followed by its file path. |
| Generators.LocationSlugIsSlug | pseo/generate.js:158 | `pg-near-` followed by a non-empty slug is a slug. |
| Generators.Collect | pseo/generate.js:155-262 | The generator loop yields one page per record, in order. |
| Generators.GenerateLocationPages | pseo/generate.js:155-262 | One location page per record, in order. |
| Generators.GeneratePersonaPages | pseo/generate.js:265-327 | One persona page per record, in order. |
| Generators.GenerateGlossaryPages | pseo/generate.js:330-398 | One glossary page per term, in order. |
| Generators.GenerateComparisonPages | pseo/generate.js:401-467 | One comparison page per record, in order. |
| Generators.GenerateCurationPages | pseo/generate.js:470-544 | One curation page per record, in order. |
| Generators.Generated | pseo/generate.js:555-561 | A run has as many pages as the five inputs have records together. |
| Generators.GenerateAll | pseo/generate.js:555-561 | The five generators' pages, concatenated in playbook order. |
| Generators.EmittedUnlinked | pseo/generate.js:155-262 | A generator whose pages are all unlinked emits only unlinked pages. |
| Generators.LocationsUnlinked | pseo/generate.js:155-262 | Every location page leaves its generator placed, unlinked and with the slot. |
| Generators.PersonasUnlinked | pseo/generate.js:265-327 | The same for persona pages. |
| Generators.GlossaryUnlinked | pseo/generate.js:330-398 | The same for glossary pages. |
| Generators.ComparisonsUnlinked | pseo/generate.js:401-467 | The same for comparison pages. |
| Generators.CurationsUnlinked | pseo/generate.js:470-544 | The same for curation pages. |
| Generators.GeneratedUnlinked | pseo/generate.js:555-561 | Every page of a run is placed, unlinked and holds the slot before linking. |
| Strings.Take | pseo/utils/linker.js:74 | `slice(0, n)` keeps the first min(n, length) elements. |
| Strings.ReplaceFirstAt | pseo/generate.js:572 | `replace` with a string pattern rewrites only the first occurrence. |
| Strings.ReplaceFirstAbsent | pseo/generate.js:572 | Without an occurrence, `replace` changes nothing. |
| Orchestrator.Registry | pseo/generate.js:566 | The registry holds one entry per page, in run order. |
| Orchestrator.RegistryDistinctIff | pseo/generate.js:566 | The registry's slugs are distinct exactly when the pages' slugs are. |
| Orchestrator.RegisterAll | pseo/generate.js:566 | Registering every page on a new linker gives the run's registry. |
| Orchestrator.LinkOne | pseo/generate.js:569-573 | A page is given its links, and its slot is replaced by the related-pages section. |
| Orchestrator.LinkAll | pseo/generate.js:569-573 | Every page is linked against the full registry of the run. |
| Orchestrator.LinkPages | pseo/generate.js:569-573 | The in-place loop over the run yields exactly the linked pages. |
| Orchestrator.LinkedSplice | pseo/generate.js:569-573 | The links section replaces the first slot; links and content are the only fields that change. |
| Orchestrator.Linked | pseo/generate.js:569-573 | A linked page gets its links (at most eight); only links and content change, and content without a slot is kept. |
| Orchestrator.LinkedKeepsSlotless | pseo/generate.js:572 | Content without a links slot comes through the splice unchanged. |
| Orchestrator.LinkSource | pseo/generate.js:569-573 | Every link of a page carries the title and url of another page of the same run with a different slug. |
| Orchestrator.NoSelfLinks | pseo/generate.js:569-573 | When URLs determine slugs, no page links to itself. |
| Orchestrator.LinkCountOfRun | pseo/generate.js:569-573 | With distinct slugs, a page gets min(8, run size minus one) links, and at least three when the run has four pages or more. |
| Orchestrator.NoInsufficientLinks | pseo/generate.js:569-589 | In a run of at least four pages with distinct slugs, no page is flagged for insufficient links. |
| Orchestrator.LinkTargetsInSitemap | pseo/generate.js:569-623 | Every link target appears as a `<loc>` in the sitemap of the same run. |
| Orchestrator.Issues | pseo/generate.js:576-589 | Every issue is an invalid result's slug and errors, every invalid result has its issue, and there are exactly as many issues as invalid results. |
| Orchestrator.InvalidCountAppend | pseo/generate.js:576-589 | Counting invalid results distributes over concatenation. |
| Orchestrator.IssuesOne | pseo/generate.js:582-587 | A single result yields its issue exactly when it is invalid. |
| Orchestrator.IssuesSnoc | pseo/generate.js:576-589 | Validating one more page appends that page's issue, if any. |
| Orchestrator.IssuesAppend | pseo/generate.js:576-589 | Issue collection distributes over concatenation, so issues keep validation order. |
| Orchestrator.IssueAt | pseo/generate.js:576-589 | The invalid result at position i has its issue at the position given by the number of invalid results before it. |
| Orchestrator.ValidateAll | pseo/generate.js:576-589 | From a reset validator, it counts valid and invalid pages (the invalid count being the number of invalid results), collects one issue per invalid page, and leaves the sets as the whole run recorded them. |
| Orchestrator.Files | pseo/generate.js:613-619 | One output file per page, with the page's file path and content. |
| Orchestrator.WriteAll | pseo/generate.js:613-619 | The write loop produces exactly those files. |
| Orchestrator.Manifest | pseo/generate.js:627-633 | One manifest row per page, with its URL, playbook name, title, primary keyword and link count (zero when absent). |
| Orchestrator.Process | pseo/generate.js:563-641 | Links, validates and counts the run. A dry run reports the stats and writes nothing. Otherwise it writes every page, the sitemap and the manifest. |
| Orchestrator.Run | pseo/generate.js:550-641 | The same, starting from the five inputs: the run's pages are the generated pages, linked. |

## Left out

- File system and console: `loadJSON`, the directory creation, the HTML, sitemap and manifest writes, and every `console` line. Writes are modelled as returned values (`OutputFile`, `SitemapOutput`, `ManifestRow` lists).
- `process.argv`: the `--validate` flag is the `dryRun` parameter.
- The clock: the sitemap date is the `today` parameter, and the footer's year is not modelled.
- The byte-exact page templates are abbreviated.
  - `baseHead`, `headerNav`, `footerHtml`, `schemaJSON` and the long section bodies are left out.
  - The breadcrumb trail, heading, section list, the `{{INTERNAL_LINKS}}` slot and `ctaBlock` are kept.
  - "Content too short" therefore refers to the modelled content length, not to the deployed page's length.
- Validation messages are modelled as `ValidationError` constructors carrying their data, not as formatted strings.
- `toLowerCase` is modelled on ASCII letters only; letters outside ASCII that have a lower-case form are not lowered. `\s` is the full JavaScript whitespace set.
- JavaScript strings are UTF-16. `slice` and `length` are modelled on Dafny characters, so characters outside the Basic Multilingual Plane are not modelled.
- `String.prototype.replace` special `$` patterns in the replacement text are not modelled; the links HTML holds none unless a title does.
- Playbooks are a fixed enum plus `Other(tag)`. Every table (URL, file path, priority, minimum length) is read by the tag name, as the source's object lookups are, so `Other("glossary")` behaves as `Glossary`. Lookups of object-prototype keys (`map['constructor']`) are not modelled.
- `Linking.Linker.GetLinks`: `maxLinks` is a `nat`; the negative values JavaScript's `slice` would accept are not modelled.
- `Array.prototype.sort` is modelled as a stable insertion sort, which is what the engine guarantees since ES2019.
- `Orchestrator.LinkPages`: the source mutates the descriptors in place. The model returns new values in the same order; aliasing between the linker's registry and the pages is not modelled, since the registry copies fields on registration.
- The linker singleton and the validator's module-level sets are modelled as one `Linker` created per run and a `Validator` object passed in.
- The "at least 2 siblings / 2 cross-playbook / minimum 5 links" rule comment in `linker.js` is not a contract of the code and is not claimed.
- `Generators.Generated`: its own contract only gives the page count; the order is stated by `Generators.GenerateAll` and the per-playbook methods.
- `pages/pg/pg-script.js` and `script.js` are the site's browser scripts and are not part of this model.
