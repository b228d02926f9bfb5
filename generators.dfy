/**
 * The five page generators. Each walks its input records in order and
 * pushes one page descriptor per record: slug, url and file path from the
 * slug utilities, title, truncated meta description, primary keyword and
 * keywords, and an article whose sections end in the one internal-links
 * placeholder. Cross-reference ids (recommended PGs, nearby colleges,
 * related glossary terms, curated PGs) are resolved against lookup tables;
 * ids that do not resolve are dropped.
 */
module Generators {
  import opened Wrappers
  import opened Strings
  import opened Slug
  import opened Pages
  import opened Html

  /** The slot `main` later fills with the rendered internal links. */
  const Placeholder := "{{INTERNAL_LINKS}}"

  // ---------------------------------------------------------------- input records

  datatype LocationRecord = LocationRecord(
    id: string, name: string, city: string,
    recommendedPgs: Option<seq<string>>, nearbyColleges: Option<seq<string>>)

  datatype College = College(id: string, name: string, kind: string, programs: seq<string>)

  datatype PersonaRecord = PersonaRecord(
    slug: string, title: string, name: string, description: string, gender: string, keywords: seq<string>)

  datatype GlossaryRecord = GlossaryRecord(
    id: string, slug: string, term: string, shortDefinition: string, relatedTerms: seq<string>)

  datatype ComparisonRecord = ComparisonRecord(slug: string, title: string, introduction: string, keywords: seq<string>)

  datatype CurationRecord = CurationRecord(
    slug: string, title: string, location: Option<string>, rankingFactors: seq<string>, pgs: Option<seq<string>>)

  // ---------------------------------------------------------------- id resolution

  /** A property of the operator's own PGs, as the generators' lookup tables hold it. */
  datatype Pg = Pg(name: string, gender: string, price: string, url: string, amenities: seq<string>)

  /** The five known PG ids; any other id is unknown. */
  function PgTable(id: string): Option<Pg> {
    if id == "sanvi-girls-pg" then
      Some(Pg("Sanvi Girls PG", "Girls", "\U{20B9}16,899", "/pages/pg/sanvi-girls-pg.html", ["AC", "WiFi", "Meals", "CCTV", "Laundry"]))
    else if id == "krishna-boys-pg" then
      Some(Pg("Krishna Boys PG", "Boys", "\U{20B9}16,299", "/pages/pg/krishna-boys-pg.html", ["AC", "WiFi", "Meals", "CCTV", "Parking"]))
    else if id == "swami-vivekanand-pg" then
      Some(Pg("Swami Vivekanand PG", "Co-ed", "\U{20B9}17,500", "/pages/pg/swami-vivekanand-pg.html", ["AC", "WiFi", "Meals", "CCTV", "Smart TV"]))
    else if id == "balaji-pg" then
      Some(Pg("Balaji PG", "Boys", "\U{20B9}15,999", "/pages/pg/balaji-pg.html", ["AC", "WiFi", "Meals", "CCTV", "Study Desk"]))
    else if id == "lakshmi-girls-pg" then
      Some(Pg("Lakshmi Girls PG", "Girls", "\U{20B9}16,499", "/pages/pg/lakshmi-girls-pg.html", ["AC", "WiFi", "Meals", "CCTV", "Laundry"]))
    else None
  }

  /** `colleges.find(col => col.id === id)`. */
  function FindCollege(colleges: seq<College>, id: string): (r: Option<College>)
    ensures r.Some? ==> r.value in colleges && r.value.id == id
    ensures r.None? ==> forall c :: c in colleges ==> c.id != id
    decreases |colleges|
  {
    if |colleges| == 0 then None
    else if colleges[0].id == id then Some(colleges[0])
    else FindCollege(colleges[1..], id)
  }

  /** `find` returns the first college with the id, whatever follows it. */
  lemma {:induction false} FindCollegeFirst(colleges: seq<College>, id: string, i: nat)
    requires i < |colleges| && colleges[i].id == id
    requires forall j :: 0 <= j < i ==> colleges[j].id != id
    ensures FindCollege(colleges, id) == Some(colleges[i])
    decreases i
  {
    if i > 0 {
      FindCollegeFirst(colleges[1..], id, i - 1);
    }
  }

  /** `glossary.find(x => x.id === id)`. */
  function FindTerm(glossary: seq<GlossaryRecord>, id: string): (r: Option<GlossaryRecord>)
    ensures r.Some? ==> r.value in glossary && r.value.id == id
    ensures r.None? ==> forall g :: g in glossary ==> g.id != id
    decreases |glossary|
  {
    if |glossary| == 0 then None
    else if glossary[0].id == id then Some(glossary[0])
    else FindTerm(glossary[1..], id)
  }

  /** `find` returns the first glossary term with the id, whatever follows it. */
  lemma {:induction false} FindTermFirst(glossary: seq<GlossaryRecord>, id: string, i: nat)
    requires i < |glossary| && glossary[i].id == id
    requires forall j :: 0 <= j < i ==> glossary[j].id != id
    ensures FindTerm(glossary, id) == Some(glossary[i])
    decreases i
  {
    if i > 0 {
      FindTermFirst(glossary[1..], id, i - 1);
    }
  }

  /** `ids.map(lookup).filter(Boolean)`: the resolved values in id order, unresolved ids dropped. */
  function Resolve<T>(ids: seq<string>, lookup: string -> Option<T>): (r: seq<T>)
    ensures |r| <= |ids|
    ensures forall i :: 0 <= i < |ids| && lookup(ids[i]).Some? ==> lookup(ids[i]).value in r
    ensures forall y :: y in r ==> exists i :: 0 <= i < |ids| && lookup(ids[i]) == Some(y)
    decreases |ids|
  {
    if |ids| == 0 then []
    else (if lookup(ids[0]).Some? then [lookup(ids[0]).value] else []) + Resolve(ids[1..], lookup)
  }

  /** Resolution works id by id: resolving a concatenation resolves each part and keeps their order. */
  lemma {:induction false} ResolveAppend<T>(a: seq<string>, b: seq<string>, lookup: string -> Option<T>)
    ensures Resolve(a + b, lookup) == Resolve(a, lookup) + Resolve(b, lookup)
    decreases |a|
  {
    if |a| == 0 {
      assert a + b == b;
    } else {
      var head := if lookup(a[0]).Some? then [lookup(a[0]).value] else [];
      assert (a + b)[0] == a[0] && (a + b)[1..] == a[1..] + b;
      assert Resolve(a + b, lookup) == head + Resolve(a[1..] + b, lookup);
      ResolveAppend(a[1..], b, lookup);
      assert Resolve(a, lookup) == head + Resolve(a[1..], lookup);
    }
  }

  /** A value is kept exactly when some id resolves to it. */
  lemma {:induction false} ResolveMembers<T>(ids: seq<string>, lookup: string -> Option<T>, y: T)
    ensures y in Resolve(ids, lookup) <==> exists i :: 0 <= i < |ids| && lookup(ids[i]) == Some(y)
    decreases |ids|
  {
    if |ids| > 0 {
      ResolveMembers(ids[1..], lookup, y);
      if exists i :: 0 <= i < |ids| && lookup(ids[i]) == Some(y) {
        var i :| 0 <= i < |ids| && lookup(ids[i]) == Some(y);
        if i > 0 {
          assert ids[1..][i - 1] == ids[i];
        }
      }
      if exists i :: 0 <= i < |ids| - 1 && lookup(ids[1..][i]) == Some(y) {
        var i :| 0 <= i < |ids| - 1 && lookup(ids[1..][i]) == Some(y);
        assert ids[i + 1] == ids[1..][i];
      }
    }
  }

  /** Ids that all resolve are all kept, one value per id, in order. */
  lemma {:induction false} ResolveAll<T>(ids: seq<string>, lookup: string -> Option<T>)
    requires forall i :: 0 <= i < |ids| ==> lookup(ids[i]).Some?
    ensures |Resolve(ids, lookup)| == |ids|
    ensures forall i :: 0 <= i < |ids| ==> Resolve(ids, lookup)[i] == lookup(ids[i]).value
    decreases |ids|
  {
    if |ids| > 0 {
      forall i | 0 <= i < |ids| - 1 ensures lookup(ids[1..][i]).Some? {
        assert ids[1..][i] == ids[i + 1];
      }
      ResolveAll(ids[1..], lookup);
      var r := Resolve(ids, lookup);
      forall i | 0 <= i < |ids| ensures r[i] == lookup(ids[i]).value {
        if i > 0 {
          assert ids[1..][i - 1] == ids[i];
        }
      }
    }
  }

  /** Ids that resolve to nothing leave nothing. */
  lemma {:induction false} ResolveNone<T>(ids: seq<string>, lookup: string -> Option<T>)
    requires forall i :: 0 <= i < |ids| ==> lookup(ids[i]).None?
    ensures Resolve(ids, lookup) == []
    decreases |ids|
  {
    if |ids| > 0 {
      forall i | 0 <= i < |ids| - 1 ensures lookup(ids[1..][i]).None? {
        assert ids[1..][i] == ids[i + 1];
      }
      ResolveNone(ids[1..], lookup);
    }
  }

  function RecommendedPgs(loc: LocationRecord): seq<Pg> {
    Resolve(loc.recommendedPgs.GetOr([]), PgTable)
  }

  function NearbyColleges(loc: LocationRecord, colleges: seq<College>): seq<College> {
    Resolve(loc.nearbyColleges.GetOr([]), id => FindCollege(colleges, id))
  }

  function RelatedTerms(g: GlossaryRecord, glossary: seq<GlossaryRecord>): seq<GlossaryRecord> {
    Resolve(g.relatedTerms, id => FindTerm(glossary, id))
  }

  // ---------------------------------------------------------------- curation ranks

  /** A curated PG card and the rank number it shows. */
  datatype Listing = Listing(rank: nat, pg: Pg)

  /**
   * The cards for `ids`, the first of which sits at position `from` of the
   * curated list: each known id gets its 1-based position in that list as
   * its rank, before unknown ids are dropped.
   */
  function Listings(ids: seq<string>, from: nat): (r: seq<Listing>)
    ensures |r| <= |ids|
    ensures forall l :: l in r ==> from < l.rank <= from + |ids|
    ensures |r| == |ids| ==> forall i :: 0 <= i < |ids| ==> PgTable(ids[i]).Some? && r[i] == Listing(from + i + 1, PgTable(ids[i]).value)
    decreases |ids|
  {
    if |ids| == 0 then []
    else (if PgTable(ids[0]).Some? then [Listing(from + 1, PgTable(ids[0]).value)] else []) + Listings(ids[1..], from + 1)
  }

  function CurationListings(cur: CurationRecord): seq<Listing> {
    Listings(cur.pgs.GetOr([]), 0)
  }

  predicate RanksIncrease(l: seq<Listing>) {
    forall i, j :: 0 <= i < j < |l| ==> l[i].rank < l[j].rank
  }

  /** Every card's rank is the 1-based position, in the curated list, of an id naming that card's PG. */
  lemma {:induction false} ListingsPositions(ids: seq<string>, from: nat)
    ensures forall l :: l in Listings(ids, from) ==>
      from < l.rank <= from + |ids| && PgTable(ids[l.rank - from - 1]) == Some(l.pg)
    decreases |ids|
  {
    if |ids| > 0 {
      ListingsPositions(ids[1..], from + 1);
      var rest := Listings(ids[1..], from + 1);
      forall l | l in rest ensures PgTable(ids[l.rank - from - 1]) == Some(l.pg) {
        assert ids[1..][l.rank - (from + 1) - 1] == ids[l.rank - from - 1];
      }
    }
  }

  /** The cards are in curated-list order: ranks strictly increase. */
  lemma {:induction false} ListingsIncrease(ids: seq<string>, from: nat)
    ensures RanksIncrease(Listings(ids, from))
    decreases |ids|
  {
    if |ids| > 0 {
      ListingsIncrease(ids[1..], from + 1);
      var rest := Listings(ids[1..], from + 1);
      if PgTable(ids[0]).Some? {
        ListingsPositions(ids[1..], from + 1);
        RanksCons(Listing(from + 1, PgTable(ids[0]).value), rest);
      }
    }
  }

  lemma RanksCons(h: Listing, rest: seq<Listing>)
    requires RanksIncrease(rest)
    requires forall l :: l in rest ==> h.rank < l.rank
    ensures RanksIncrease([h] + rest)
  {
    var r := [h] + rest;
    forall i, j | 0 <= i < j < |r| ensures r[i].rank < r[j].rank {
      assert r[j] == rest[j - 1] && r[j] in rest;
      if i > 0 {
        assert r[i] == rest[i - 1];
      }
    }
  }

  /** The cards show exactly the PGs the curated ids resolve to, in order. */
  lemma {:induction false} ListingsResolve(ids: seq<string>, from: nat)
    ensures |Listings(ids, from)| == |Resolve(ids, PgTable)|
    ensures forall i :: 0 <= i < |Listings(ids, from)| ==> Listings(ids, from)[i].pg == Resolve(ids, PgTable)[i]
    decreases |ids|
  {
    if |ids| > 0 {
      ListingsResolve(ids[1..], from + 1);
    }
  }

  /** Ranks count unknown ids too: a known PG after an unknown id is shown as #2, with no #1. */
  lemma RankGapExample()
    ensures |Listings(["no-such-pg", "balaji-pg"], 0)| == 1 && Listings(["no-such-pg", "balaji-pg"], 0)[0].rank == 2
  {
    var ids := ["no-such-pg", "balaji-pg"];
    assert PgTable(ids[0]).None? && PgTable(ids[1]).Some?;
    assert ids[1..] == ["balaji-pg"] && ids[1..][1..] == [];
    assert Listings(ids[1..][1..], 2) == [];
    assert Listings(ids[1..], 1) == [Listing(2, PgTable("balaji-pg").value)];
  }

  // ---------------------------------------------------------------- meta descriptions

  /** `${p.title} — ${p.description.slice(0, 130)}...`. */
  function PersonaMeta(p: PersonaRecord): (r: string)
    ensures |r| == |p.title| + 3 + (if |p.description| < 130 then |p.description| else 130) + 3
  {
    p.title + " \U{2014} " + Take(p.description, 130) + "..."
  }

  /** `${c.introduction.slice(0, 150)}...`. */
  function ComparisonMeta(c: ComparisonRecord): (r: string)
    ensures |r| == (if |c.introduction| < 150 then |c.introduction| else 150) + 3
  {
    Take(c.introduction, 150) + "..."
  }

  /** `g.short_definition.slice(0, 155)`. */
  function GlossaryMeta(g: GlossaryRecord): (r: string)
    ensures |r| == if |g.shortDefinition| < 155 then |g.shortDefinition| else 155
    ensures IsPrefix(r, g.shortDefinition)
    ensures |g.shortDefinition| <= 155 ==> r == g.shortDefinition
  {
    Take(g.shortDefinition, 155)
  }

  const LocationPitch := ". Fully furnished rooms with meals, WiFi, security. Starting \U{20B9}7,500/month. Visit Kangaroo House."

  function LocationMeta(loc: LocationRecord): string {
    "Find the best PG accommodation near " + loc.name + ", " + loc.city + LocationPitch
  }

  const CurationPitch := ". Verified listings with photos and reviews."

  /** Names the curation in lower case and at most its first three ranking factors. */
  function CurationMeta(cur: CurationRecord): string {
    "Discover the " + LowerAscii(cur.title) + ". Ranked by " + Join(Take(cur.rankingFactors, 3), ", ") + CurationPitch
  }

  /** The truncated metas keep the head of their source text and end in an ellipsis. */
  lemma TruncatedMetas(p: PersonaRecord, c: ComparisonRecord)
    ensures var m := PersonaMeta(p); var d := m[|p.title| + 3..|m| - 3];
      IsPrefix(p.title + " \U{2014} ", m) && IsPrefix(d, p.description) && m[|m| - 3..] == "..."
      && |d| == (if |p.description| < 130 then |p.description| else 130)
    ensures var m := ComparisonMeta(c); var d := m[..|m| - 3];
      IsPrefix(d, c.introduction) && m[|m| - 3..] == "..."
      && |d| == (if |c.introduction| < 150 then |c.introduction| else 150)
  {
    var m := PersonaMeta(p);
    var t := Take(p.description, 130);
    assert m == (p.title + " \U{2014} ") + t + "...";
    assert m[|p.title| + 3..|m| - 3] == t;
    var n := ComparisonMeta(c);
    assert n[..|n| - 3] == Take(c.introduction, 150);
  }

  // ---------------------------------------------------------------- article structure

  const Cta := "\n    <section class=\"cta-block\">\n      <h2>Ready to Find Your Perfect PG?</h2>\n      <p>Browse fully furnished PG rooms near Ashok Nagar, Vasundhara Enclave &amp; Maharaja Agrasen College.</p>\n      <a href=\"/pages/pg/PG.html\" class=\"btn-primary\">View All PGs \U{2192}</a>\n    </section>"

  /** What precedes the links slot: the trail, the heading and the sections. */
  function ArticleHead(trail: seq<Crumb>, heading: string, sections: seq<string>): string {
    Breadcrumbs(trail) + "\n    <article class=\"seo-article\">\n      <h1>" + heading + "</h1>\n"
    + Join(sections, "\n\n") + "\n\n      "
  }

  /** What follows the links slot: the call to action and the article's end. */
  const ArticleTail := "\n      " + Cta + "\n    </article>\n  </main>"

  /** An article with a links slot between the sections and the call to action. */
  function Article(trail: seq<Crumb>, heading: string, sections: seq<string>): (r: string)
    ensures Includes(r, Placeholder)
  {
    IncludesInfix(ArticleHead(trail, heading, sections), Placeholder, ArticleTail);
    ArticleHead(trail, heading, sections) + Placeholder + ArticleTail
  }

  function Esc(s: string): string {
    EscHtml(Some(s))
  }

  const Home := Crumb("Home", "/")

  /** The brand suffix every generated title ends with. */
  const Brand := " | Kangaroo House"

  /** The decimal digits of a rank. */
  function Decimal(n: nat): string
    decreases n
  {
    if n < 10 then [('0' as int + n) as char] else Decimal(n / 10) + [('0' as int + n % 10) as char]
  }

  function PgCard(pg: Pg, place: string): string {
    "\n            <div class=\"pg-listing-card\">\n              <h3><a href=\"" + pg.url + "\">" + Esc(pg.name)
    + "</a></h3>\n              <div class=\"pg-meta\"><span class=\"tag\">" + pg.gender + "</span> <span class=\"price\">From "
    + pg.price + "/mo</span></div>\n              <p>Fully furnished rooms with 4 meals/day, WiFi, laundry, and 24/7 security near "
    + Esc(place) + ".</p>\n              <a href=\"" + pg.url + "\" class=\"btn-sm\">View Details \U{2192}</a>\n            </div>"
  }

  function CollegeItem(c: College): string {
    "<li><strong>" + Esc(c.name) + "</strong> \U{2014} " + Esc(c.kind) + " (" + Esc(Join(Take(c.programs, 3), ", ")) + ")</li>"
  }

  function TermChip(t: GlossaryRecord): string {
    "<a href=\"/pages/seo/glossary/" + t.slug + ".html\" class=\"related-term-chip\">" + Esc(t.term) + "</a>"
  }

  function ListingCard(l: Listing): string {
    "\n            <div class=\"curation-card\">\n              <div class=\"curation-rank\">#" + Decimal(l.rank)
    + "</div>\n              <h3><a href=\"" + l.pg.url + "\">" + Esc(l.pg.name) + "</a></h3>\n              <a href=\""
    + l.pg.url + "\" class=\"btn-sm\">View Details \U{2192}</a>\n            </div>"
  }

  function LocationSections(loc: LocationRecord, colleges: seq<College>): seq<string> {
    var pgs := RecommendedPgs(loc);
    var near := NearbyColleges(loc, colleges);
    var cards := seq(|pgs|, i requires 0 <= i < |pgs| => PgCard(pgs[i], loc.name));
    var items := seq(|near|, i requires 0 <= i < |near| => CollegeItem(near[i]));
    ["<div class=\"pg-listings\">" + Join(cards, "\n") + "</div>"]
    + (if |items| > 0 then ["<section class=\"content-section\">\n        <ul>" + Join(items, "\n                ") + "</ul>\n      </section>"] else [])
  }

  function GlossarySections(g: GlossaryRecord, glossary: seq<GlossaryRecord>): seq<string> {
    var related := RelatedTerms(g, glossary);
    var chips := seq(|related|, i requires 0 <= i < |related| => TermChip(related[i]));
    [ "<div class=\"glossary-short-def\"><p><strong>Definition:</strong> " + Esc(g.shortDefinition) + "</p></div>",
      "<div class=\"related-terms-bar\">" + Join(chips, "\n            ") + "</div>" ]
  }

  function CurationSections(cur: CurationRecord): seq<string> {
    var listings := CurationListings(cur);
    var cards := seq(|listings|, i requires 0 <= i < |listings| => ListingCard(listings[i]));
    ["<div class=\"curation-listings\">" + Join(cards, "\n") + "</div>"]
  }

  // ---------------------------------------------------------------- descriptors

  /** `keywords[0]`, undefined for an empty list. */
  function FirstKeyword(keywords: seq<string>): (r: Option<string>)
    ensures r.Some? <==> |keywords| > 0
    ensures r.Some? ==> r.value == keywords[0]
  {
    if |keywords| > 0 then Some(keywords[0]) else None
  }

  /** A descriptor's url and file path are the slug utilities' for its own playbook and slug. */
  predicate Placed(p: Page) {
    p.url == BuildUrl(p.playbook, p.slug) && p.filePath == BuildFilePath(p.playbook, p.slug)
  }

  /** A descriptor as a generator emits it: placed, not yet linked, with a links slot in its content. */
  predicate Unlinked(p: Page) {
    Placed(p) && p.internalLinks.None? && p.college.None? && Includes(p.htmlContent, Placeholder)
  }

  function LocationPage(loc: LocationRecord, colleges: seq<College>): (r: Page)
    ensures Unlinked(r) && r.playbook == Location
    ensures r.slug == "pg-near-" + loc.id && r.location == Some(loc.id)
    ensures r.keywords.Some? && |r.keywords.value| == 3 && r.primaryKeyword == Some(r.keywords.value[0])
    ensures r.keywords == Some(["PG near " + loc.name, "hostel " + loc.name, "PG " + loc.city])
    ensures r.title == "PG near " + loc.name + ", " + loc.city + Brand && r.metaDescription == LocationMeta(loc)
  {
    var slug := "pg-near-" + loc.id;
    var url := BuildUrl(Location, slug);
    Page(slug, url, BuildFilePath(Location, slug),
         "PG near " + loc.name + ", " + loc.city + Brand,
         LocationMeta(loc), "Best PG near " + loc.name, Some("PG near " + loc.name), Location,
         Some(["PG near " + loc.name, "hostel " + loc.name, "PG " + loc.city]),
         Some(loc.id), None, None,
         Article([Home, Crumb("PG Listings", "/pages/pg/PG.html"), Crumb("PG near " + loc.name, url)],
                 "Best PG Accommodation near " + Esc(loc.name) + ", " + Esc(loc.city),
                 LocationSections(loc, colleges)),
         None)
  }

  function PersonaPage(p: PersonaRecord): (r: Page)
    ensures Unlinked(r) && r.playbook == Persona && r.slug == p.slug
    ensures r.primaryKeyword == FirstKeyword(p.keywords) && r.keywords == Some(p.keywords)
    ensures r.gender == Some(p.gender) && r.location.None?
    ensures r.title == p.title + Brand && r.h1 == p.title && r.metaDescription == PersonaMeta(p)
  {
    var url := BuildUrl(Persona, p.slug);
    Page(p.slug, url, BuildFilePath(Persona, p.slug), p.title + Brand, PersonaMeta(p), p.title,
         FirstKeyword(p.keywords), Persona, Some(p.keywords), None, Some(p.gender), None,
         Article([Home, Crumb("PG Listings", "/pages/pg/PG.html"), Crumb(p.name, url)], Esc(p.title),
                 ["<p>" + Esc(p.description) + "</p>"]),
         None)
  }

  function GlossaryPage(g: GlossaryRecord, glossary: seq<GlossaryRecord>): (r: Page)
    ensures Unlinked(r) && r.playbook == Glossary && r.slug == g.slug
    ensures r.keywords.Some? && |r.keywords.value| == 3
    ensures r.primaryKeyword == Some("what is " + r.keywords.value[0])
    ensures var term := LowerAscii(g.term); r.keywords == Some([term, term + " meaning", term + " in PG"])
    ensures r.title == g.term + ": Meaning & Complete Guide" + Brand && r.metaDescription == GlossaryMeta(g)
  {
    var url := BuildUrl(Glossary, g.slug);
    var term := LowerAscii(g.term);
    Page(g.slug, url, BuildFilePath(Glossary, g.slug), g.term + ": Meaning & Complete Guide" + Brand,
         GlossaryMeta(g), g.term, Some("what is " + term), Glossary,
         Some([term, term + " meaning", term + " in PG"]), None, None, None,
         Article([Home, Crumb("Glossary", "/pages/seo/glossary/what-is-a-paying-guest.html"), Crumb(g.term, url)],
                 Esc(g.term), GlossarySections(g, glossary)),
         None)
  }

  function ComparisonPage(c: ComparisonRecord): (r: Page)
    ensures Unlinked(r) && r.playbook == Comparison && r.slug == c.slug
    ensures r.primaryKeyword == FirstKeyword(c.keywords) && r.keywords == Some(c.keywords)
    ensures r.title == c.title + Brand && r.h1 == c.title && r.metaDescription == ComparisonMeta(c)
  {
    var url := BuildUrl(Comparison, c.slug);
    Page(c.slug, url, BuildFilePath(Comparison, c.slug), c.title + Brand, ComparisonMeta(c), c.title,
         FirstKeyword(c.keywords), Comparison, Some(c.keywords), None, None, None,
         Article([Home, Crumb("Comparisons", "#"), Crumb(c.title, url)], Esc(c.title),
                 ["<p>" + Esc(c.introduction) + "</p>"]),
         None)
  }

  function CurationPage(cur: CurationRecord): (r: Page)
    ensures Unlinked(r) && r.playbook == Curation && r.slug == cur.slug && r.location == cur.location
    ensures r.keywords.Some? && |r.keywords.value| == 1 && r.primaryKeyword == Some(r.keywords.value[0])
    ensures r.keywords == Some([LowerAscii(cur.title)]) && r.primaryKeyword == Some(LowerAscii(cur.title))
    ensures r.title == cur.title + Brand && r.h1 == cur.title && r.metaDescription == CurationMeta(cur)
  {
    var url := BuildUrl(Curation, cur.slug);
    var lower := LowerAscii(cur.title);
    Page(cur.slug, url, BuildFilePath(Curation, cur.slug), cur.title + Brand, CurationMeta(cur),
         cur.title, Some(lower), Curation, Some([lower]), cur.location, None, None,
         Article([Home, Crumb("Best PGs", "/pages/pg/PG.html"), Crumb(cur.title, url)], Esc(cur.title),
                 CurationSections(cur)),
         None)
  }

  /** Every generated url is the file path under the generated tree. */
  lemma PlacedUnderTree(p: Page)
    requires Placed(p)
    ensures p.url == UrlBase + "/" + p.filePath
  {
    BuildUrlFilePath(p.playbook, p.slug);
  }

  /** A location slug is a slug whenever the location id is one. */
  lemma LocationSlugIsSlug(id: string)
    requires IsSlug(id) && |id| > 0
    ensures IsSlug("pg-near-" + id)
  {
    var s := "pg-near-" + id;
    assert s[..8] == "pg-near-" && s[8..] == id;
    forall i | 0 <= i < |s| ensures IsSlugChar(s[i]) {
      if i >= 8 {
        assert s[i] == id[i - 8];
      }
    }
    forall i | 0 <= i < |s| - 1 ensures !(s[i] == '-' && s[i + 1] == '-') {
      if i >= 8 {
        assert s[i] == id[i - 8] && s[i + 1] == id[i - 7];
      } else if i == 7 {
        assert s[i + 1] == id[0];
      }
    }
    assert s[|s| - 1] == id[|id| - 1];
  }

  // ---------------------------------------------------------------- generators

  /** One descriptor per record, in record order. */
  function Emitted<R>(records: seq<R>, make: R -> Page): (r: seq<Page>)
    ensures |r| == |records|
  {
    seq(|records|, i requires 0 <= i < |records| => make(records[i]))
  }

  /** Emitting one more record appends its descriptor. */
  lemma EmittedSnoc<R>(records: seq<R>, x: R, make: R -> Page)
    ensures Emitted(records + [x], make) == Emitted(records, make) + [make(x)]
  {
  }

  /**
   * The loop every generator runs: one descriptor per input record, pushed
   * in record order.
   */
  method Collect<R>(records: seq<R>, make: R -> Page) returns (pages: seq<Page>)
    ensures pages == Emitted(records, make)
  {
    pages := [];
    for i := 0 to |records|
      invariant pages == Emitted(records[..i], make)
    {
      pages := pages + [make(records[i])];
      assert records[..i + 1] == records[..i] + [records[i]];
    }
    assert records[..|records|] == records;
  }

  function LocationMaker(colleges: seq<College>): LocationRecord -> Page {
    loc => LocationPage(loc, colleges)
  }

  function GlossaryMaker(glossary: seq<GlossaryRecord>): GlossaryRecord -> Page {
    g => GlossaryPage(g, glossary)
  }

  method GenerateLocationPages(locations: seq<LocationRecord>, colleges: seq<College>) returns (pages: seq<Page>)
    ensures pages == Emitted(locations, LocationMaker(colleges))
    ensures |pages| == |locations|
    ensures forall i :: 0 <= i < |locations| ==> pages[i] == LocationPage(locations[i], colleges)
  {
    pages := Collect(locations, LocationMaker(colleges));
  }

  method GeneratePersonaPages(personas: seq<PersonaRecord>) returns (pages: seq<Page>)
    ensures pages == Emitted(personas, PersonaPage)
    ensures |pages| == |personas|
    ensures forall i :: 0 <= i < |personas| ==> pages[i] == PersonaPage(personas[i])
  {
    pages := Collect(personas, PersonaPage);
  }

  method GenerateGlossaryPages(glossary: seq<GlossaryRecord>) returns (pages: seq<Page>)
    ensures pages == Emitted(glossary, GlossaryMaker(glossary))
    ensures |pages| == |glossary|
    ensures forall i :: 0 <= i < |glossary| ==> pages[i] == GlossaryPage(glossary[i], glossary)
  {
    pages := Collect(glossary, GlossaryMaker(glossary));
  }

  method GenerateComparisonPages(comparisons: seq<ComparisonRecord>) returns (pages: seq<Page>)
    ensures pages == Emitted(comparisons, ComparisonPage)
    ensures |pages| == |comparisons|
    ensures forall i :: 0 <= i < |comparisons| ==> pages[i] == ComparisonPage(comparisons[i])
  {
    pages := Collect(comparisons, ComparisonPage);
  }

  method GenerateCurationPages(curations: seq<CurationRecord>) returns (pages: seq<Page>)
    ensures pages == Emitted(curations, CurationPage)
    ensures |pages| == |curations|
    ensures forall i :: 0 <= i < |curations| ==> pages[i] == CurationPage(curations[i])
  {
    pages := Collect(curations, CurationPage);
  }

  // ---------------------------------------------------------------- one run's pages

  /** The data files a run reads. */
  datatype Inputs = Inputs(
    locations: seq<LocationRecord>, colleges: seq<College>, personas: seq<PersonaRecord>,
    glossary: seq<GlossaryRecord>, comparisons: seq<ComparisonRecord>, curations: seq<CurationRecord>)

  /** All descriptors of a run: the five generators' outputs concatenated in generator order. */
  function Generated(input: Inputs): (r: seq<Page>)
    ensures |r| == |input.locations| + |input.personas| + |input.glossary| + |input.comparisons| + |input.curations|
  {
    Emitted(input.locations, LocationMaker(input.colleges)) + Emitted(input.personas, PersonaPage)
    + Emitted(input.glossary, GlossaryMaker(input.glossary)) + Emitted(input.comparisons, ComparisonPage)
    + Emitted(input.curations, CurationPage)
  }

  /** Runs the five generators in order and concatenates their pages. */
  method GenerateAll(input: Inputs) returns (pages: seq<Page>)
    ensures pages == Generated(input)
  {
    var loc := GenerateLocationPages(input.locations, input.colleges);
    var per := GeneratePersonaPages(input.personas);
    var glo := GenerateGlossaryPages(input.glossary);
    var com := GenerateComparisonPages(input.comparisons);
    var cur := GenerateCurationPages(input.curations);
    pages := loc + per + glo + com + cur;
  }

  lemma EmittedUnlinked<R>(records: seq<R>, make: R -> Page)
    requires forall x :: Unlinked(make(x))
    ensures forall p :: p in Emitted(records, make) ==> Unlinked(p)
  {
  }

  lemma LocationsUnlinked(locations: seq<LocationRecord>, colleges: seq<College>)
    ensures forall p :: p in Emitted(locations, LocationMaker(colleges)) ==> Unlinked(p)
  {
    EmittedUnlinked(locations, LocationMaker(colleges));
  }

  lemma PersonasUnlinked(personas: seq<PersonaRecord>)
    ensures forall p :: p in Emitted(personas, PersonaPage) ==> Unlinked(p)
  {
    EmittedUnlinked(personas, PersonaPage);
  }

  lemma GlossaryUnlinked(glossary: seq<GlossaryRecord>)
    ensures forall p :: p in Emitted(glossary, GlossaryMaker(glossary)) ==> Unlinked(p)
  {
    EmittedUnlinked(glossary, GlossaryMaker(glossary));
  }

  lemma ComparisonsUnlinked(comparisons: seq<ComparisonRecord>)
    ensures forall p :: p in Emitted(comparisons, ComparisonPage) ==> Unlinked(p)
  {
    EmittedUnlinked(comparisons, ComparisonPage);
  }

  lemma CurationsUnlinked(curations: seq<CurationRecord>)
    ensures forall p :: p in Emitted(curations, CurationPage) ==> Unlinked(p)
  {
    EmittedUnlinked(curations, CurationPage);
  }

  /** Every descriptor of a run is placed under its playbook's directory, unlinked, with a links slot. */
  lemma GeneratedUnlinked(input: Inputs)
    ensures forall p :: p in Generated(input) ==> Unlinked(p)
  {
    LocationsUnlinked(input.locations, input.colleges);
    PersonasUnlinked(input.personas);
    GlossaryUnlinked(input.glossary);
    ComparisonsUnlinked(input.comparisons);
    CurationsUnlinked(input.curations);
  }
}
