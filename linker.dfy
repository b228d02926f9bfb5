/**
 * The internal-linking engine: a registry of page entries that `register`
 * appends to, and `getLinks`, which scores every other registered page
 * against the queried one, ranks them by score and composes up to
 * `maxLinks` links from the best same-playbook pages, the best
 * cross-playbook pages and then the remaining pages in rank order.
 */
module Linking {
  import opened Wrappers
  import opened Strings
  import opened Slug
  import opened Pages

  /** The fields of a page the registry keeps. */
  datatype Entry = Entry(
    slug: string,
    title: string,
    playbook: Playbook,
    url: string,
    keywords: seq<string>,
    location: Option<string>,
    gender: Option<string>,
    college: Option<string>)

  /** A candidate: a registry entry with its score (`{ ...p, score }`). */
  datatype Scored = Scored(entry: Entry, score: nat)

  /** `value || null`: an absent or empty string becomes null. */
  function OrNull(o: Option<string>): (r: Option<string>)
    ensures r.Some? <==> Truthy(o)
    ensures r.Some? ==> r == o
  {
    if Truthy(o) then o else None
  }

  /** A location, gender or college the registry holds is never the empty string. */
  predicate NoEmptyAffinity(e: Entry) {
    && (e.location.Some? ==> |e.location.value| > 0)
    && (e.gender.Some? ==> |e.gender.value| > 0)
    && (e.college.Some? ==> |e.college.value| > 0)
  }

  /**
   * The entry `register` stores for a page: absent keywords become the empty
   * list and a falsy location, gender or college becomes null.
   */
  function EntryOf(page: Page): (e: Entry)
    ensures NoEmptyAffinity(e)
    ensures Truthy(page.location) ==> e.location == page.location
    ensures Truthy(page.gender) ==> e.gender == page.gender
    ensures Truthy(page.college) ==> e.college == page.college
    ensures e.location.None? <==> !Truthy(page.location)
    ensures e.gender.None? <==> !Truthy(page.gender)
    ensures e.college.None? <==> !Truthy(page.college)
    ensures e.slug == page.slug && e.title == page.title && e.playbook == page.playbook && e.url == page.url
    ensures e.keywords == page.keywords.GetOr([])
  {
    Entry(page.slug, page.title, page.playbook, page.url, page.keywords.GetOr([]),
          OrNull(page.location), OrNull(page.gender), OrNull(page.college))
  }

  /** `pages.find(p => p.slug === slug)`: the first entry with the slug. */
  function Find(registry: seq<Entry>, slug: string): (r: Option<Entry>)
    ensures r.None? <==> forall i :: 0 <= i < |registry| ==> registry[i].slug != slug
    ensures r.Some? ==> r.value in registry && r.value.slug == slug
    decreases |registry|
  {
    if |registry| == 0 then None
    else if registry[0].slug == slug then Some(registry[0])
    else Find(registry[1..], slug)
  }

  /** The first entry with a slug is the one `find` returns. */
  lemma {:induction false} FindFirst(registry: seq<Entry>, slug: string, i: nat)
    requires i < |registry| && registry[i].slug == slug
    requires forall j :: 0 <= j < i ==> registry[j].slug != slug
    ensures Find(registry, slug) == Some(registry[i])
    decreases i
  {
    if i > 0 {
      FindFirst(registry[1..], slug, i - 1);
    }
  }

  // ---------------------------------------------------------------- scoring

  /** `k.includes(ck) || ck.includes(k)`. */
  predicate Related(k: string, ck: string) {
    Includes(k, ck) || Includes(ck, k)
  }

  /** `current.keywords.some(ck => Related(k, ck))`. */
  predicate RelatesToAny(k: string, current: seq<string>) {
    exists ck :: ck in current && Related(k, ck)
  }

  /**
   * The keyword-overlap term: the number of candidate keywords that relate
   * to at least one current keyword (candidate keywords are counted, not
   * pairs).
   */
  function Overlap(keywords: seq<string>, current: seq<string>): nat
    decreases |keywords|
  {
    if |keywords| == 0 then 0
    else (if RelatesToAny(keywords[0], current) then 1 else 0) + Overlap(keywords[1..], current)
  }

  /** Each candidate keyword counts at most once, however many current keywords it relates to. */
  lemma {:induction false} OverlapBound(keywords: seq<string>, current: seq<string>)
    ensures Overlap(keywords, current) <= |keywords|
    decreases |keywords|
  {
    if |keywords| > 0 {
      OverlapBound(keywords[1..], current);
    }
  }

  /** Only the set of current keywords matters: repeating or reordering them changes nothing. */
  lemma {:induction false} OverlapSetOnly(keywords: seq<string>, c1: seq<string>, c2: seq<string>)
    requires forall ck :: ck in c1 <==> ck in c2
    ensures Overlap(keywords, c1) == Overlap(keywords, c2)
    decreases |keywords|
  {
    if |keywords| > 0 {
      OverlapSetOnly(keywords[1..], c1, c2);
      assert RelatesToAny(keywords[0], c1) <==> RelatesToAny(keywords[0], c2);
    }
  }

  /**
   * The empty string is included in every string, so a current page with an
   * empty keyword relates to every candidate keyword.
   */
  lemma {:induction false} OverlapEmptyKeyword(keywords: seq<string>, current: seq<string>)
    requires "" in current
    ensures Overlap(keywords, current) == |keywords|
    decreases |keywords|
  {
    if |keywords| > 0 {
      assert IsPrefix("", keywords[0]);
      assert Related(keywords[0], "");
      OverlapEmptyKeyword(keywords[1..], current);
    }
  }

  /**
   * The score of candidate `p` for the current page: +2 for the same
   * playbook or +1 for another one, +3, +1 and +2 for a matching location,
   * gender and college of the current page, plus the keyword overlap.
   */
  /**
   * Exactly one playbook term applies, so every score is at least 1 (2 for
   * a sibling) and at most 8 plus the candidate's number of keywords.
   */
  function Score(current: Entry, p: Entry): (r: nat)
    ensures 1 <= r <= 8 + |p.keywords|
    ensures SameTag(p.playbook, current.playbook) ==> r >= 2
  {
    OverlapBound(p.keywords, current.keywords);
    (if SameTag(p.playbook, current.playbook) then 2 else 0)
    + (if Truthy(current.location) && p.location == current.location then 3 else 0)
    + (if Truthy(current.gender) && p.gender == current.gender then 1 else 0)
    + (if Truthy(current.college) && p.college == current.college then 2 else 0)
    + (if !SameTag(p.playbook, current.playbook) then 1 else 0)
    + Overlap(p.keywords, current.keywords)
  }

  /** With no location, gender or college on the current page, only playbook and keywords count. */
  lemma ScoreWithoutAffinity(current: Entry, p: Entry)
    requires current.location.None? && current.gender.None? && current.college.None?
    ensures Score(current, p) == (if SameTag(p.playbook, current.playbook) then 2 else 1) + Overlap(p.keywords, current.keywords)
  {
  }

  /** `pages.filter(p => p.slug !== slug)`: every registered page except those with the queried slug. */
  function Others(registry: seq<Entry>, slug: string): (r: seq<Entry>)
    ensures |r| <= |registry|
    ensures forall i :: 0 <= i < |r| ==> r[i].slug != slug && r[i] in registry
    ensures forall e :: e in registry && e.slug != slug ==> e in r
    decreases |registry|
  {
    if |registry| == 0 then []
    else if registry[0].slug != slug then [registry[0]] + Others(registry[1..], slug)
    else Others(registry[1..], slug)
  }

  /** A single entry is kept exactly when its slug differs from the queried one. */
  lemma OthersOne(e: Entry, slug: string)
    ensures Others([e], slug) == if e.slug != slug then [e] else []
  {
    assert [e][1..] == [];
  }

  /** The filter distributes over concatenation, so it keeps registration order. */
  lemma {:induction false} OthersAppend(a: seq<Entry>, b: seq<Entry>, slug: string)
    ensures Others(a + b, slug) == Others(a, slug) + Others(b, slug)
    decreases |a|
  {
    if |a| == 0 {
      assert a + b == b;
    } else {
      assert (a + b)[0] == a[0];
      assert (a + b)[1..] == a[1..] + b;
      OthersAppend(a[1..], b, slug);
    }
  }

  /** The other pages, each scored against the current one, in registration order. */
  function Candidates(registry: seq<Entry>, current: Entry, slug: string): (r: seq<Scored>)
    ensures |r| == |Others(registry, slug)|
    ensures forall i :: 0 <= i < |r| ==> r[i].entry == Others(registry, slug)[i]
    ensures forall i :: 0 <= i < |r| ==> r[i].score == Score(current, r[i].entry)
  {
    var others := Others(registry, slug);
    seq(|others|, i requires 0 <= i < |others| => Scored(others[i], Score(current, others[i])))
  }

  /** No two registered pages share a slug. */
  predicate RegistryDistinct(registry: seq<Entry>) {
    forall i, j :: 0 <= i < j < |registry| ==> registry[i].slug != registry[j].slug
  }

  /** No two candidates share a slug. */
  predicate DistinctSlugs(s: seq<Scored>) {
    forall i, j :: 0 <= i < j < |s| ==> s[i].entry.slug != s[j].entry.slug
  }

  lemma RegistryDistinctTail(registry: seq<Entry>)
    requires |registry| > 0 && RegistryDistinct(registry)
    ensures RegistryDistinct(registry[1..])
    ensures forall i :: 0 <= i < |registry| - 1 ==> registry[1..][i].slug != registry[0].slug
  {
    var tail := registry[1..];
    forall i, j | 0 <= i < j < |tail| ensures tail[i].slug != tail[j].slug {
      assert tail[i] == registry[i + 1] && tail[j] == registry[j + 1];
    }
    forall i | 0 <= i < |tail| ensures tail[i].slug != registry[0].slug {
      assert tail[i] == registry[i + 1];
    }
  }

  /** Every registered page except the queried one is a candidate, when slugs are distinct. */
  lemma {:induction false} OthersCount(registry: seq<Entry>, slug: string)
    requires RegistryDistinct(registry)
    ensures |Others(registry, slug)| == |registry| - (if Find(registry, slug).Some? then 1 else 0)
    decreases |registry|
  {
    if |registry| > 0 {
      RegistryDistinctTail(registry);
      OthersCount(registry[1..], slug);
    }
  }

  /** The other pages of a registry with distinct slugs have distinct slugs. */
  lemma {:induction false} OthersDistinct(registry: seq<Entry>, slug: string)
    requires RegistryDistinct(registry)
    ensures RegistryDistinct(Others(registry, slug))
    decreases |registry|
  {
    if |registry| > 0 {
      var tail := registry[1..];
      RegistryDistinctTail(registry);
      OthersDistinct(tail, slug);
      var rest := Others(tail, slug);
      if registry[0].slug != slug {
        var r := Others(registry, slug);
        assert r == [registry[0]] + rest;
        forall i, j | 0 <= i < j < |r| ensures r[i].slug != r[j].slug {
          assert r[j] == rest[j - 1];
          if i == 0 {
            var k :| 0 <= k < |tail| && tail[k] == rest[j - 1];
          } else {
            assert r[i] == rest[i - 1];
          }
        }
      }
    }
  }

  /** Candidates from a registry with distinct slugs have distinct slugs. */
  lemma CandidatesDistinct(registry: seq<Entry>, current: Entry, slug: string)
    requires RegistryDistinct(registry)
    ensures DistinctSlugs(Candidates(registry, current, slug))
    ensures |Candidates(registry, current, slug)| == |registry| - (if Find(registry, slug).Some? then 1 else 0)
  {
    OthersDistinct(registry, slug);
    OthersCount(registry, slug);
  }

  // ---------------------------------------------------------------- ranking

  /** Places `x` before the first element that does not outscore it. */
  function InsertByScore(x: Scored, t: seq<Scored>): (r: seq<Scored>)
    ensures |r| == |t| + 1
    decreases |t|
  {
    if |t| == 0 || t[0].score <= x.score then [x] + t
    else [t[0]] + InsertByScore(x, t[1..])
  }

  /**
   * `.sort((a, b) => b.score - a.score)` with the stability the language
   * guarantees: an insertion sort by descending score that keeps
   * equal-score candidates in registration order.
   */
  function SortByScore(s: seq<Scored>): (r: seq<Scored>)
    ensures |r| == |s|
    decreases |s|
  {
    if |s| == 0 then [] else InsertByScore(s[0], SortByScore(s[1..]))
  }

  predicate NonIncreasing(s: seq<Scored>) {
    forall i, j :: 0 <= i < j < |s| ==> s[i].score >= s[j].score
  }

  /** The elements of `s` with score `v`, in their order in `s`. */
  function WithScore(s: seq<Scored>, v: nat): seq<Scored>
    decreases |s|
  {
    if |s| == 0 then [] else (if s[0].score == v then [s[0]] else []) + WithScore(s[1..], v)
  }

  lemma {:induction false} InsertPerm(x: Scored, t: seq<Scored>)
    ensures multiset(InsertByScore(x, t)) == multiset(t) + multiset{x}
    decreases |t|
  {
    if |t| > 0 && t[0].score > x.score {
      InsertPerm(x, t[1..]);
      assert t == [t[0]] + t[1..];
    }
  }

  lemma NonIncreasingTail(t: seq<Scored>)
    requires |t| > 0 && NonIncreasing(t)
    ensures NonIncreasing(t[1..])
    ensures forall y :: y in t[1..] ==> t[0].score >= y.score
  {
    forall i, j | 0 <= i < j < |t| - 1 ensures t[1..][i].score >= t[1..][j].score {
      assert t[1..][i] == t[i + 1] && t[1..][j] == t[j + 1];
    }
    forall y | y in t[1..] ensures t[0].score >= y.score {
      var k :| 0 <= k < |t| - 1 && t[1..][k] == y;
      assert t[k + 1] == y;
    }
  }

  lemma {:induction false} InsertSorted(x: Scored, t: seq<Scored>)
    requires NonIncreasing(t)
    ensures NonIncreasing(InsertByScore(x, t))
    decreases |t|
  {
    if |t| == 0 || t[0].score <= x.score {
      forall y | y in t ensures x.score >= y.score {
        NonIncreasingHead(t, y);
      }
      NonIncreasingCons(x, t);
    } else {
      NonIncreasingTail(t);
      var rest := InsertByScore(x, t[1..]);
      assert InsertByScore(x, t) == [t[0]] + rest;
      InsertSorted(x, t[1..]);
      InsertPerm(x, t[1..]);
      forall y | y in rest ensures t[0].score >= y.score {
        assert y in multiset(rest);
      }
      NonIncreasingCons(t[0], rest);
    }
  }

  lemma NonIncreasingHead(t: seq<Scored>, y: Scored)
    requires NonIncreasing(t) && y in t
    ensures t[0].score >= y.score
  {
    var k :| 0 <= k < |t| && t[k] == y;
    if k > 0 {
      assert t[0].score >= t[k].score;
    }
  }

  /** Inserting keeps the relative order of equal-score elements, the inserted one first. */
  lemma {:induction false} InsertWithScore(x: Scored, t: seq<Scored>, v: nat)
    ensures WithScore(InsertByScore(x, t), v) == (if x.score == v then [x] else []) + WithScore(t, v)
    decreases |t|
  {
    if |t| == 0 || t[0].score <= x.score {
      WithScoreCons(x, t, v);
    } else {
      var rest := InsertByScore(x, t[1..]);
      assert InsertByScore(x, t) == [t[0]] + rest;
      WithScoreCons(t[0], rest, v);
      InsertWithScore(x, t[1..], v);
      WithScoreCons(t[0], t[1..], v);
      assert t == [t[0]] + t[1..];
      if x.score == v {
        assert t[0].score != v;
      }
    }
  }

  lemma WithScoreCons(y: Scored, t: seq<Scored>, v: nat)
    ensures WithScore([y] + t, v) == (if y.score == v then [y] else []) + WithScore(t, v)
  {
    var r := [y] + t;
    assert r[0] == y && r[1..] == t;
  }

  /** The ranking is a permutation of the candidates in non-increasing score order. */
  lemma {:induction false} SortByScoreSorted(s: seq<Scored>)
    ensures NonIncreasing(SortByScore(s))
    ensures multiset(SortByScore(s)) == multiset(s)
    decreases |s|
  {
    if |s| > 0 {
      SortByScoreSorted(s[1..]);
      InsertSorted(s[0], SortByScore(s[1..]));
      InsertPerm(s[0], SortByScore(s[1..]));
      assert s == [s[0]] + s[1..];
    }
  }

  /** The ranking is stable: candidates with equal scores keep their relative order. */
  lemma {:induction false} SortByScoreStable(s: seq<Scored>, v: nat)
    ensures WithScore(SortByScore(s), v) == WithScore(s, v)
    decreases |s|
  {
    if |s| > 0 {
      SortByScoreStable(s[1..], v);
      InsertWithScore(s[0], SortByScore(s[1..]), v);
    }
  }

  /** Slugs stay distinct when `x`, whose slug is new, is inserted. */
  lemma {:induction false} InsertDistinct(x: Scored, t: seq<Scored>)
    requires DistinctSlugs(t)
    requires forall y :: y in t ==> y.entry.slug != x.entry.slug
    ensures DistinctSlugs(InsertByScore(x, t))
    decreases |t|
  {
    if |t| == 0 || t[0].score <= x.score {
      DistinctCons(x, t);
    } else {
      DistinctTail(t);
      InsertDistinct(x, t[1..]);
      InsertPerm(x, t[1..]);
      var rest := InsertByScore(x, t[1..]);
      forall y | y in rest ensures y.entry.slug != t[0].entry.slug {
        assert y in multiset(rest);
      }
      DistinctCons(t[0], rest);
    }
  }

  lemma DistinctCons(x: Scored, t: seq<Scored>)
    requires DistinctSlugs(t)
    requires forall y :: y in t ==> y.entry.slug != x.entry.slug
    ensures DistinctSlugs([x] + t)
  {
    var r := [x] + t;
    forall i, j | 0 <= i < j < |r| ensures r[i].entry.slug != r[j].entry.slug {
      assert r[j] == t[j - 1];
      if i > 0 {
        assert r[i] == t[i - 1];
      }
    }
  }

  lemma DistinctTail(t: seq<Scored>)
    requires |t| > 0 && DistinctSlugs(t)
    ensures DistinctSlugs(t[1..])
    ensures forall y :: y in t[1..] ==> y.entry.slug != t[0].entry.slug
  {
    forall i, j | 0 <= i < j < |t| - 1 ensures t[1..][i].entry.slug != t[1..][j].entry.slug {
      assert t[1..][i] == t[i + 1] && t[1..][j] == t[j + 1];
    }
    forall y | y in t[1..] ensures y.entry.slug != t[0].entry.slug {
      var k :| 0 <= k < |t| - 1 && t[1..][k] == y;
      assert t[k + 1] == y;
    }
  }

  /** Ranking candidates with distinct slugs keeps them distinct. */
  lemma {:induction false} SortByScoreDistinct(s: seq<Scored>)
    requires DistinctSlugs(s)
    ensures DistinctSlugs(SortByScore(s))
    decreases |s|
  {
    if |s| > 0 {
      DistinctTail(s);
      SortByScoreDistinct(s[1..]);
      SortByScoreSorted(s[1..]);
      var sorted := SortByScore(s[1..]);
      forall y | y in sorted ensures y.entry.slug != s[0].entry.slug {
        assert y in multiset(s[1..]);
      }
      InsertDistinct(s[0], sorted);
    }
  }

  // ---------------------------------------------------------------- selection

  /** `candidates.filter(c => c.playbook === pb)` for `same`, `!==` otherwise. */
  function ByPlaybook(s: seq<Scored>, pb: Playbook, same: bool): (r: seq<Scored>)
    ensures |r| <= |s|
    ensures forall y :: y in r ==> y in s && SameTag(y.entry.playbook, pb) == same
    ensures forall y :: y in s && SameTag(y.entry.playbook, pb) == same ==> y in r
    decreases |s|
  {
    if |s| == 0 then []
    else (if SameTag(s[0].entry.playbook, pb) == same then [s[0]] else []) + ByPlaybook(s[1..], pb, same)
  }

  /** A single candidate is kept exactly when its playbook test comes out as `same`. */
  lemma ByPlaybookOne(y: Scored, pb: Playbook, same: bool)
    ensures ByPlaybook([y], pb, same) == if SameTag(y.entry.playbook, pb) == same then [y] else []
  {
    assert [y][1..] == [];
  }

  /** The filter distributes over concatenation, so it keeps the ranked order. */
  lemma {:induction false} ByPlaybookAppend(a: seq<Scored>, b: seq<Scored>, pb: Playbook, same: bool)
    ensures ByPlaybook(a + b, pb, same) == ByPlaybook(a, pb, same) + ByPlaybook(b, pb, same)
    decreases |a|
  {
    if |a| == 0 {
      assert a + b == b;
    } else {
      assert (a + b)[0] == a[0];
      assert (a + b)[1..] == a[1..] + b;
      ByPlaybookAppend(a[1..], b, pb, same);
    }
  }

  /** The slugs of a list of candidates. */
  function SlugSet(s: seq<Scored>): set<string>
    decreases |s|
  {
    if |s| == 0 then {} else {s[0].entry.slug} + SlugSet(s[1..])
  }

  /**
   * The fill order: candidates whose slug is not used yet, in rank order,
   * each slug once (a slug is used as soon as a candidate with it is taken).
   */
  function Fresh(rest: seq<Scored>, used: set<string>): (r: seq<Scored>)
    ensures |r| <= |rest|
    ensures forall y :: y in r ==> y in rest && y.entry.slug !in used
    decreases |rest|
  {
    if |rest| == 0 then []
    else if rest[0].entry.slug in used then Fresh(rest[1..], used)
    else [rest[0]] + Fresh(rest[1..], used + {rest[0].entry.slug})
  }

  /** The candidates in rank order. */
  function Ranked(registry: seq<Entry>, current: Entry, slug: string): seq<Scored> {
    SortByScore(Candidates(registry, current, slug))
  }

  /** Up to three best same-playbook candidates, then up to three best cross-playbook ones. */
  function Preferred(ranked: seq<Scored>, pb: Playbook): seq<Scored> {
    Take(ByPlaybook(ranked, pb, true), 3) + Take(ByPlaybook(ranked, pb, false), 3)
  }

  /**
   * What `getLinks` selects: nothing for an unregistered slug; otherwise the
   * preferred candidates followed by the fill, cut to `max`.
   */
  function Selection(registry: seq<Entry>, slug: string, max: nat): (r: seq<Scored>)
    ensures |r| <= max
    ensures Find(registry, slug).None? ==> r == []
  {
    match Find(registry, slug)
    case None => []
    case Some(current) =>
      var ranked := Ranked(registry, current, slug);
      var preferred := Preferred(ranked, current.playbook);
      Take(preferred + Fresh(ranked, SlugSet(preferred)), max)
  }

  /** A returned link carries only the candidate's title, url and playbook. */
  function LinkOf(c: Scored): Link {
    Link(c.entry.title, c.entry.url, c.entry.playbook)
  }

  function Links(s: seq<Scored>): (r: seq<Link>)
    ensures |r| == |s|
    ensures forall i :: 0 <= i < |s| ==> r[i] == LinkOf(s[i])
  {
    seq(|s|, i requires 0 <= i < |s| => LinkOf(s[i]))
  }

  lemma {:induction false} SlugSetMember(s: seq<Scored>, x: string)
    ensures x in SlugSet(s) <==> exists y :: y in s && y.entry.slug == x
    decreases |s|
  {
    if |s| > 0 {
      SlugSetMember(s[1..], x);
      assert s == [s[0]] + s[1..];
    }
  }

  lemma {:induction false} SlugSetAppend(a: seq<Scored>, b: seq<Scored>)
    ensures SlugSet(a + b) == SlugSet(a) + SlugSet(b)
    decreases |a|
  {
    if |a| == 0 {
      assert a + b == b;
    } else {
      assert (a + b)[1..] == a[1..] + b;
      SlugSetAppend(a[1..], b);
    }
  }

  /** Distinct slugs: as many slugs as candidates. */
  lemma {:induction false} DistinctCard(s: seq<Scored>)
    requires DistinctSlugs(s)
    ensures |SlugSet(s)| == |s|
    decreases |s|
  {
    if |s| > 0 {
      DistinctTail(s);
      DistinctCard(s[1..]);
      SlugSetMember(s[1..], s[0].entry.slug);
    }
  }

  lemma DistinctAppend(a: seq<Scored>, b: seq<Scored>)
    requires DistinctSlugs(a) && DistinctSlugs(b)
    requires forall y, z :: y in a && z in b ==> y.entry.slug != z.entry.slug
    ensures DistinctSlugs(a + b)
  {
    var r := a + b;
    forall i, j | 0 <= i < j < |r| ensures r[i].entry.slug != r[j].entry.slug {
      if j < |a| {
        assert r[i] == a[i] && r[j] == a[j];
      } else if i >= |a| {
        assert r[i] == b[i - |a|] && r[j] == b[j - |a|];
      } else {
        assert r[i] == a[i] && r[j] == b[j - |a|];
      }
    }
  }

  lemma DistinctTake(s: seq<Scored>, n: nat)
    requires DistinctSlugs(s)
    ensures DistinctSlugs(Take(s, n))
  {
    var r := Take(s, n);
    forall i, j | 0 <= i < j < |r| ensures r[i].entry.slug != r[j].entry.slug {
      assert r[i] == s[i] && r[j] == s[j];
    }
  }

  lemma {:induction false} ByPlaybookDistinct(s: seq<Scored>, pb: Playbook, same: bool)
    requires DistinctSlugs(s)
    ensures DistinctSlugs(ByPlaybook(s, pb, same))
    decreases |s|
  {
    if |s| > 0 {
      DistinctTail(s);
      ByPlaybookDistinct(s[1..], pb, same);
      if SameTag(s[0].entry.playbook, pb) == same {
        DistinctCons(s[0], ByPlaybook(s[1..], pb, same));
      }
    }
  }

  /** The same-playbook and cross-playbook lists, each in rank order. */
  lemma {:induction false} ByPlaybookSorted(s: seq<Scored>, pb: Playbook, same: bool)
    requires NonIncreasing(s)
    ensures NonIncreasing(ByPlaybook(s, pb, same))
    decreases |s|
  {
    if |s| > 0 {
      NonIncreasingTail(s);
      ByPlaybookSorted(s[1..], pb, same);
      if SameTag(s[0].entry.playbook, pb) == same {
        NonIncreasingCons(s[0], ByPlaybook(s[1..], pb, same));
      }
    }
  }

  lemma NonIncreasingCons(x: Scored, rest: seq<Scored>)
    requires NonIncreasing(rest)
    requires forall y :: y in rest ==> x.score >= y.score
    ensures NonIncreasing([x] + rest)
  {
    var r := [x] + rest;
    forall i, j | 0 <= i < j < |r| ensures r[i].score >= r[j].score {
      assert r[j] == rest[j - 1] && r[j] in rest;
      if i > 0 {
        assert r[i] == rest[i - 1];
      }
    }
  }

  lemma {:induction false} FreshDistinct(rest: seq<Scored>, used: set<string>)
    ensures DistinctSlugs(Fresh(rest, used))
    decreases |rest|
  {
    if |rest| > 0 {
      if rest[0].entry.slug !in used {
        var u := used + {rest[0].entry.slug};
        FreshDistinct(rest[1..], u);
        DistinctCons(rest[0], Fresh(rest[1..], u));
      } else {
        FreshDistinct(rest[1..], used);
      }
    }
  }

  /** The fill reaches every slug of the ranking that is not used yet. */
  lemma {:induction false} FreshCovers(rest: seq<Scored>, used: set<string>)
    ensures SlugSet(Fresh(rest, used)) + used == SlugSet(rest) + used
    decreases |rest|
  {
    if |rest| > 0 {
      var x := rest[0].entry.slug;
      if x in used {
        FreshCovers(rest[1..], used);
      } else {
        FreshCovers(rest[1..], used + {x});
        var f := Fresh(rest[1..], used + {x});
        assert ([rest[0]] + f)[1..] == f;
      }
    }
  }

  /** Every element of the ranking is a scored, registered page other than the queried one. */
  lemma RankedMember(registry: seq<Entry>, current: Entry, slug: string, y: Scored)
    requires y in Ranked(registry, current, slug)
    ensures y.entry.slug != slug && y.entry in registry && y.score == Score(current, y.entry)
  {
    var cands := Candidates(registry, current, slug);
    SortByScoreSorted(cands);
    assert y in multiset(cands);
    var i :| 0 <= i < |cands| && cands[i] == y;
    assert y.entry == Others(registry, slug)[i];
  }

  /**
   * No link points to the queried page: every selected candidate is a
   * registered page with another slug, carrying its score; and there are at
   * most `max` of them.
   */
  lemma SelectionSound(registry: seq<Entry>, slug: string, max: nat)
    ensures |Selection(registry, slug, max)| <= max
    ensures forall y :: y in Selection(registry, slug, max) ==> y.entry.slug != slug && y.entry in registry
    ensures Find(registry, slug).Some? ==> forall y :: y in Selection(registry, slug, max) ==>
      y.score == Score(Find(registry, slug).value, y.entry)
  {
    match Find(registry, slug)
    case None =>
    case Some(current) =>
      forall y | y in Selection(registry, slug, max)
        ensures y.entry.slug != slug && y.entry in registry && y.score == Score(current, y.entry)
      {
        SelectionFromRanked(registry, slug, max, current, y);
        RankedMember(registry, current, slug, y);
      }
  }

  /** Whatever is selected comes from the ranking. */
  lemma SelectionFromRanked(registry: seq<Entry>, slug: string, max: nat, current: Entry, y: Scored)
    requires Find(registry, slug) == Some(current)
    requires y in Selection(registry, slug, max)
    ensures y in Ranked(registry, current, slug)
  {
    var ranked := Ranked(registry, current, slug);
    var preferred := Preferred(ranked, current.playbook);
    var fill := Fresh(ranked, SlugSet(preferred));
    assert Selection(registry, slug, max) == Take(preferred + fill, max);
    assert y in preferred + fill;
    if y in preferred {
      var sib, cross := ByPlaybook(ranked, current.playbook, true), ByPlaybook(ranked, current.playbook, false);
      assert y in Take(sib, 3) || y in Take(cross, 3);
    }
  }

  /** The preferred picks followed by the fill never repeat a slug. */
  lemma FillDistinct(ranked: seq<Scored>, preferred: seq<Scored>)
    requires DistinctSlugs(preferred)
    ensures DistinctSlugs(preferred + Fresh(ranked, SlugSet(preferred)))
  {
    var fill := Fresh(ranked, SlugSet(preferred));
    FreshDistinct(ranked, SlugSet(preferred));
    forall y, z | y in preferred && z in fill ensures y.entry.slug != z.entry.slug {
      SlugSetMember(preferred, y.entry.slug);
    }
    DistinctAppend(preferred, fill);
  }

  /** Picks taken from the ranking, followed by the fill, cover exactly the ranking's slugs. */
  lemma FillCovers(ranked: seq<Scored>, preferred: seq<Scored>)
    requires forall y :: y in preferred ==> y in ranked
    ensures SlugSet(preferred + Fresh(ranked, SlugSet(preferred))) == SlugSet(ranked)
  {
    var used := SlugSet(preferred);
    forall x | x in used ensures x in SlugSet(ranked) {
      SlugSetMember(preferred, x);
      SlugSetMember(ranked, x);
    }
    FreshCovers(ranked, used);
    SlugSetAppend(preferred, Fresh(ranked, used));
  }

  /** With distinct slugs throughout, the fill tops the picks up to the whole ranking. */
  lemma FillLength(ranked: seq<Scored>, preferred: seq<Scored>)
    requires DistinctSlugs(ranked) && DistinctSlugs(preferred)
    requires forall y :: y in preferred ==> y in ranked
    ensures |preferred + Fresh(ranked, SlugSet(preferred))| == |ranked|
  {
    FillDistinct(ranked, preferred);
    FillCovers(ranked, preferred);
    DistinctCard(preferred + Fresh(ranked, SlugSet(preferred)));
    DistinctCard(ranked);
  }

  /** With distinct registered slugs, no page is linked twice. */
  lemma SelectionDistinct(registry: seq<Entry>, slug: string, max: nat)
    requires RegistryDistinct(registry)
    ensures DistinctSlugs(Selection(registry, slug, max))
  {
    match Find(registry, slug)
    case None =>
    case Some(current) =>
      var ranked := Ranked(registry, current, slug);
      var preferred := Preferred(ranked, current.playbook);
      RankedDistinct(registry, current, slug);
      PreferredDistinct(ranked, current.playbook);
      FillDistinct(ranked, preferred);
      DistinctTake(preferred + Fresh(ranked, SlugSet(preferred)), max);
  }

  lemma RankedDistinct(registry: seq<Entry>, current: Entry, slug: string)
    requires RegistryDistinct(registry)
    ensures DistinctSlugs(Ranked(registry, current, slug))
    ensures |Ranked(registry, current, slug)| == |registry| - (if Find(registry, slug).Some? then 1 else 0)
  {
    CandidatesDistinct(registry, current, slug);
    SortByScoreDistinct(Candidates(registry, current, slug));
  }

  /** Siblings and cross-playbook picks never share a slug. */
  lemma PreferredDistinct(ranked: seq<Scored>, pb: Playbook)
    requires DistinctSlugs(ranked)
    ensures DistinctSlugs(Preferred(ranked, pb))
  {
    var sib, cross := ByPlaybook(ranked, pb, true), ByPlaybook(ranked, pb, false);
    ByPlaybookDistinct(ranked, pb, true);
    ByPlaybookDistinct(ranked, pb, false);
    DistinctTake(sib, 3);
    DistinctTake(cross, 3);
    forall y, z | y in Take(sib, 3) && z in Take(cross, 3) ensures y.entry.slug != z.entry.slug {
      assert y in ranked && z in ranked && y != z;
      var i :| 0 <= i < |ranked| && ranked[i] == y;
      var j :| 0 <= j < |ranked| && ranked[j] == z;
      assert i != j;
    }
    DistinctAppend(Take(sib, 3), Take(cross, 3));
  }

  /**
   * With distinct registered slugs and the queried page registered, the
   * result has exactly min(max, number of other pages) links: the fill
   * tops the list up from every page not yet picked.
   */
  lemma SelectionLength(registry: seq<Entry>, slug: string, max: nat)
    requires RegistryDistinct(registry)
    requires Find(registry, slug).Some?
    ensures |Selection(registry, slug, max)| == if max < |registry| - 1 then max else |registry| - 1
  {
    var current := Find(registry, slug).value;
    var ranked := Ranked(registry, current, slug);
    RankedDistinct(registry, current, slug);
    PreferredDistinct(ranked, current.playbook);
    FillLength(ranked, Preferred(ranked, current.playbook));
  }

  /** The selection starts with the preferred candidates (as many as fit). */
  lemma SelectionStartsPreferred(registry: seq<Entry>, slug: string, max: nat)
    requires Find(registry, slug).Some?
    ensures var current := Find(registry, slug).value;
      var preferred := Preferred(Ranked(registry, current, slug), current.playbook);
      IsPrefix(Take(preferred, max), Selection(registry, slug, max))
  {
  }

  /**
   * The two lists the preferred picks come from are each in rank order, so
   * the (up to) three siblings taken outscore or tie every sibling left out,
   * and likewise for the cross-playbook picks.
   */
  lemma PicksOutrankTheRest(registry: seq<Entry>, current: Entry, slug: string, same: bool)
    ensures var picks := ByPlaybook(Ranked(registry, current, slug), current.playbook, same);
      forall i, j :: 0 <= i < 3 <= j < |picks| ==> picks[i].score >= picks[j].score
  {
    var ranked := Ranked(registry, current, slug);
    SortByScoreSorted(Candidates(registry, current, slug));
    ByPlaybookSorted(ranked, current.playbook, same);
  }

  // ---------------------------------------------------------------- registry

  /** Registering a page whose slug is new keeps the registry's slugs distinct. */
  lemma RegisterKeepsDistinct(registry: seq<Entry>, page: Page)
    requires RegistryDistinct(registry)
    requires Find(registry, page.slug).None?
    ensures RegistryDistinct(registry + [EntryOf(page)])
  {
    var r := registry + [EntryOf(page)];
    forall i, j | 0 <= i < j < |r| ensures r[i].slug != r[j].slug {
      assert r[i] == registry[i];
    }
  }

  /**
   * After `register`, the page can be looked up: `find` returns its entry
   * unless an earlier entry already holds the slug, in which case that
   * earlier entry shadows it.
   */
  lemma {:induction false} FindAfterRegister(registry: seq<Entry>, e: Entry)
    ensures Find(registry + [e], e.slug) == if Find(registry, e.slug).Some? then Find(registry, e.slug) else Some(e)
    decreases |registry|
  {
    if |registry| > 0 {
      assert (registry + [e])[1..] == registry[1..] + [e];
      FindAfterRegister(registry[1..], e);
    }
  }

  /** A link of the fixed `getStaticLinks` list: title and url only. */
  datatype StaticLink = StaticLink(title: string, url: string)

  /**
   * The fixed list `getStaticLinks` returns: nine hand-written site pages.
   * The generator itself never calls it.
   */
  function StaticLinks(): (r: seq<StaticLink>)
    ensures |r| == 9
  {
    [ StaticLink("View All PG Listings", "/pages/pg/PG.html"),
      StaticLink("About Kangaroo House", "/pages/about/about.html"),
      StaticLink("Photo Gallery", "/pages/about/gallery.html"),
      StaticLink("Read Our Blog", "/pages/blog/blog.html"),
      StaticLink("Sanvi Girls PG", "/pages/pg/sanvi-girls-pg.html"),
      StaticLink("Krishna Boys PG", "/pages/pg/krishna-boys-pg.html"),
      StaticLink("Swami Vivekanand PG", "/pages/pg/swami-vivekanand-pg.html"),
      StaticLink("Balaji PG", "/pages/pg/balaji-pg.html"),
      StaticLink("Lakshmi Girls PG", "/pages/pg/lakshmi-girls-pg.html") ]
  }

  /** The registry of generated pages and the link queries over it. */
  class Linker {
    var pages: seq<Entry>

    constructor()
      ensures pages == []
    {
      pages := [];
    }

    /** `register`: appends the page's entry. */
    method Register(page: Page)
      modifies this
      ensures pages == old(pages) + [EntryOf(page)]
    {
      pages := pages + [EntryOf(page)];
    }

    /**
     * `getLinks`: the preferred picks, then a fill loop over the ranking that
     * stops once `maxLinks` links are held and skips slugs already used.
     */
    method GetLinks(currentSlug: string, maxLinks: nat) returns (links: seq<Link>)
      ensures links == Links(Selection(pages, currentSlug, maxLinks))
      ensures Find(pages, currentSlug).None? ==> links == []
      ensures |links| <= maxLinks
    {
      var found := Find(pages, currentSlug);
      if found.None? {
        return [];
      }
      var current := found.value;
      var candidates := Ranked(pages, current, currentSlug);
      var combined := Fill(candidates, Preferred(candidates, current.playbook), maxLinks);
      links := Links(Take(combined, maxLinks));
    }

    /** `getStaticLinks`: the fixed links to the hand-written site pages. */
    method GetStaticLinks() returns (links: seq<StaticLink>)
      ensures links == StaticLinks()
    {
      links := StaticLinks();
    }
  }

  /** One turn of the fill loop, as a rewrite of what is still to be appended. */
  lemma FillStep(combined: seq<Scored>, rest: seq<Scored>, used: set<string>)
    requires |rest| > 0
    ensures rest[0].entry.slug in used ==> combined + Fresh(rest, used) == combined + Fresh(rest[1..], used)
    ensures rest[0].entry.slug !in used ==>
      combined + Fresh(rest, used) == (combined + [rest[0]]) + Fresh(rest[1..], used + {rest[0].entry.slug})
  {
    if rest[0].entry.slug !in used {
      AppendAssoc(combined, [rest[0]], Fresh(rest[1..], used + {rest[0].entry.slug}));
    }
  }

  /**
   * The fill loop of `getLinks`: walks the ranking, stops as soon as `max`
   * links are held, and appends each candidate whose slug is not used yet.
   * Cut to `max`, what it holds is the picks followed by the fill order.
   */
  method Fill(candidates: seq<Scored>, picks: seq<Scored>, max: nat) returns (combined: seq<Scored>)
    ensures Take(combined, max) == Take(picks + Fresh(candidates, SlugSet(picks)), max)
  {
    combined := picks;
    var slugsUsed := SlugSet(combined);
    ghost var target := combined + Fresh(candidates, slugsUsed);
    var i := 0;
    while i < |candidates|
      invariant i <= |candidates|
      invariant slugsUsed == SlugSet(combined)
      invariant combined + Fresh(candidates[i..], slugsUsed) == target
    {
      if |combined| >= max {
        break;
      }
      var c := candidates[i];
      assert candidates[i..][1..] == candidates[i + 1..];
      FillStep(combined, candidates[i..], slugsUsed);
      if c.entry.slug !in slugsUsed {
        SlugSetAppend(combined, [c]);
        combined := combined + [c];
        slugsUsed := slugsUsed + {c.entry.slug};
      }
      i := i + 1;
    }
    FillTake(combined, Fresh(candidates[i..], slugsUsed), target, max);
  }

  lemma FillTake(combined: seq<Scored>, rest: seq<Scored>, target: seq<Scored>, max: nat)
    requires combined + rest == target
    requires |combined| >= max || rest == []
    ensures Take(combined, max) == Take(target, max)
  {
  }
}
