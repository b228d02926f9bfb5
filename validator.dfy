/**
 * The quality gate: three sets of values already seen (slugs, titles and
 * primary keywords) and `validatePage`, which checks a page against them,
 * collects every failed check and then records the page's values.
 */
module Validation {
  import opened Wrappers
  import opened Slug
  import opened Pages

  datatype ValidationError =
    | DuplicateSlug(slug: string)
    | DuplicateTitle(title: string)
    | DuplicatePrimaryKeyword(keyword: string)
    | ContentTooShort(length: nat, min: nat)
    | MissingTitle
    | MissingMetaDescription
    | MissingH1
    | MissingSlug
    | InsufficientInternalLinks(count: nat)

  datatype ValidationResult = ValidationResult(valid: bool, errors: seq<ValidationError>, slug: string)

  /** The values seen so far. */
  datatype Seen = Seen(slugs: set<string>, titles: set<string>, keywords: set<string>)

  datatype Stats = Stats(totalSlugs: nat, totalTitles: nat, totalKeywords: nat)

  const Empty := Seen({}, {}, {})

  /** Glossary pages need 3000 characters of content, every other playbook 5000. */
  function MinContentLength(pb: Playbook): (n: nat)
    ensures n == 3000 || n == 5000
    ensures n == 3000 <==> Name(pb) == "glossary"
  {
    if Name(pb) == "glossary" then 3000 else 5000
  }

  /** `(page.internalLinks || []).length`. */
  function LinkCount(page: Page): nat {
    match page.internalLinks
    case Some(links) => |links|
    case None => 0
  }

  /** One check of `validatePage`: whether it failed, and the error it pushes when it does. */
  datatype Outcome = Outcome(failed: bool, error: ValidationError)

  /**
   * The nine checks of `validatePage` in the order the source runs them:
   * duplicate slug, title and primary keyword, content length, the four
   * required fields, and the internal-link minimum.
   */
  function Outcomes(page: Page, seen: Seen): (r: seq<Outcome>)
    ensures |r| == 9
  {
    var pk := page.primaryKeyword;
    var min := MinContentLength(page.playbook);
    [ Outcome(page.slug in seen.slugs, DuplicateSlug(page.slug)),
      Outcome(page.title in seen.titles, DuplicateTitle(page.title)),
      Outcome(Truthy(pk) && pk.value in seen.keywords, DuplicatePrimaryKeyword(pk.GetOr(""))),
      Outcome(|page.htmlContent| < min, ContentTooShort(|page.htmlContent|, min)),
      Outcome(|page.title| == 0, MissingTitle),
      Outcome(|page.metaDescription| == 0, MissingMetaDescription),
      Outcome(|page.h1| == 0, MissingH1),
      Outcome(|page.slug| == 0, MissingSlug),
      Outcome(page.internalLinks.None? || |page.internalLinks.value| < 3, InsufficientInternalLinks(LinkCount(page))) ]
  }

  /** The errors pushed by the first `k` checks: the error of each failed one, in order. */
  function FailuresUpTo(checks: seq<Outcome>, k: nat): seq<ValidationError>
    requires k <= |checks|
  {
    if k == 0 then [] else FailuresUpTo(checks, k - 1) + Flag(checks[k - 1])
  }

  /** The errors pushed by all of `checks`. */
  function Failures(checks: seq<Outcome>): seq<ValidationError> {
    FailuresUpTo(checks, |checks|)
  }

  /** `errors.push(o.error)` when check `o` failed. */
  function Flag(o: Outcome): seq<ValidationError> {
    if o.failed then [o.error] else []
  }

  /** How many of the first `k` checks failed. */
  function FailedCount(checks: seq<Outcome>, k: nat): nat
    requires k <= |checks|
  {
    if k == 0 then 0 else FailedCount(checks, k - 1) + (if checks[k - 1].failed then 1 else 0)
  }

  /** Which of the nine checks an error comes from. */
  function Kind(e: ValidationError): (k: nat)
    ensures k < 9
  {
    match e
    case DuplicateSlug(_) => 0
    case DuplicateTitle(_) => 1
    case DuplicatePrimaryKeyword(_) => 2
    case ContentTooShort(_, _) => 3
    case MissingTitle => 4
    case MissingMetaDescription => 5
    case MissingH1 => 6
    case MissingSlug => 7
    case InsufficientInternalLinks(_) => 8
  }

  /**
   * The result of validating `page` against the values in `seen`: every
   * check runs, each failed one contributes its error, and the page is
   * valid exactly when none failed.
   */
  function Check(page: Page, seen: Seen): (r: ValidationResult)
    ensures r.slug == page.slug
    ensures r.valid <==> |r.errors| == 0
  {
    var errors := Failures(Outcomes(page, seen));
    ValidationResult(|errors| == 0, errors, page.slug)
  }

  /** An error is among the first `k` failures exactly when one of the first `k` checks failed with it. */
  lemma {:induction false} FailuresMember(checks: seq<Outcome>, k: nat, x: ValidationError)
    requires k <= |checks|
    ensures x in FailuresUpTo(checks, k) <==> exists i :: 0 <= i < k && checks[i].failed && checks[i].error == x
  {
    if k > 0 {
      FailuresMember(checks, k - 1, x);
    }
  }

  /** One error per failed check. */
  lemma {:induction false} FailuresLength(checks: seq<Outcome>, k: nat)
    requires k <= |checks|
    ensures |FailuresUpTo(checks, k)| == FailedCount(checks, k)
  {
    if k > 0 {
      FailuresLength(checks, k - 1);
    }
  }

  /**
   * When check i can only produce errors of kind i, an error is among the
   * failures exactly when the check of its own kind failed with it.
   */
  lemma FailuresByKind(checks: seq<Outcome>, x: ValidationError)
    requires |checks| == 9
    requires forall i :: 0 <= i < 9 ==> Kind(checks[i].error) == i
    ensures x in Failures(checks) <==> checks[Kind(x)].failed && checks[Kind(x)].error == x
  {
    FailuresMember(checks, 9, x);
  }

  lemma OutcomeKinds(page: Page, seen: Seen)
    ensures forall i :: 0 <= i < 9 ==> Kind(Outcomes(page, seen)[i].error) == i
  {
  }

  /** An error is reported exactly when the check of its own kind failed with it. */
  lemma ErrorsByKind(page: Page, seen: Seen)
    ensures forall x :: x in Check(page, seen).errors <==>
      Outcomes(page, seen)[Kind(x)].failed && Outcomes(page, seen)[Kind(x)].error == x
    ensures |Check(page, seen).errors| == FailedCount(Outcomes(page, seen), 9)
  {
    var checks := Outcomes(page, seen);
    OutcomeKinds(page, seen);
    FailuresLength(checks, 9);
    forall x {
      FailuresByKind(checks, x);
    }
  }

  /**
   * When check i can only produce errors of kind i, the failures of the
   * first `k` checks are of kinds below `k`, in strictly increasing order.
   */
  lemma {:induction false} FailuresOrdered(checks: seq<Outcome>, k: nat)
    requires k <= |checks|
    requires forall i :: 0 <= i < |checks| ==> Kind(checks[i].error) == i
    ensures forall a :: 0 <= a < |FailuresUpTo(checks, k)| ==> Kind(FailuresUpTo(checks, k)[a]) < k
    ensures forall a, b :: 0 <= a < b < |FailuresUpTo(checks, k)| ==>
      Kind(FailuresUpTo(checks, k)[a]) < Kind(FailuresUpTo(checks, k)[b])
  {
    if k > 0 {
      FailuresOrdered(checks, k - 1);
      var prev := FailuresUpTo(checks, k - 1);
      assert FailuresUpTo(checks, k) == prev + Flag(checks[k - 1]);
    }
  }

  /** The errors come out in the order the checks run: their kinds strictly increase. */
  lemma ErrorsInCheckOrder(page: Page, seen: Seen)
    ensures var errors := Check(page, seen).errors;
      forall a, b :: 0 <= a < b < |errors| ==> Kind(errors[a]) < Kind(errors[b])
  {
    OutcomeKinds(page, seen);
    FailuresOrdered(Outcomes(page, seen), 9);
  }

  /**
   * The three duplicate checks, none short-circuiting another: each error is
   * present exactly when the value was seen before.
   */
  lemma CheckDuplicates(page: Page, seen: Seen)
    ensures DuplicateSlug(page.slug) in Check(page, seen).errors <==> page.slug in seen.slugs
    ensures DuplicateTitle(page.title) in Check(page, seen).errors <==> page.title in seen.titles
    ensures forall k :: DuplicatePrimaryKeyword(k) in Check(page, seen).errors <==>
      Truthy(page.primaryKeyword) && k == page.primaryKeyword.value && k in seen.keywords
  {
    ErrorsByKind(page, seen);
  }

  /** The content-length check reports the actual and the required length, and only when short. */
  lemma CheckContent(page: Page, seen: Seen)
    ensures ContentTooShort(|page.htmlContent|, MinContentLength(page.playbook)) in Check(page, seen).errors
        <==> |page.htmlContent| < MinContentLength(page.playbook)
    ensures forall n, m :: ContentTooShort(n, m) in Check(page, seen).errors ==>
      n == |page.htmlContent| && m == MinContentLength(page.playbook)
  {
    ErrorsByKind(page, seen);
  }

  /** Each required field is reported missing exactly when it is empty. */
  lemma CheckRequired(page: Page, seen: Seen)
    ensures MissingTitle in Check(page, seen).errors <==> |page.title| == 0
    ensures MissingMetaDescription in Check(page, seen).errors <==> |page.metaDescription| == 0
    ensures MissingH1 in Check(page, seen).errors <==> |page.h1| == 0
    ensures MissingSlug in Check(page, seen).errors <==> |page.slug| == 0
  {
    ErrorsByKind(page, seen);
  }

  /** Too few links is reported, with the count, exactly when there are fewer than three. */
  lemma CheckLinks(page: Page, seen: Seen)
    ensures forall n :: InsufficientInternalLinks(n) in Check(page, seen).errors <==>
      n == LinkCount(page) && (page.internalLinks.None? || |page.internalLinks.value| < 3)
  {
    ErrorsByKind(page, seen);
  }

  /** At most nine errors, and none exactly when every check passes. */
  lemma FailedCountBound(page: Page, seen: Seen)
    ensures FailedCount(Outcomes(page, seen), 9) <= 9
    ensures FailedCount(Outcomes(page, seen), 9) == 0 <==> forall i :: 0 <= i < 9 ==> !Outcomes(page, seen)[i].failed
  {
    CountBound(Outcomes(page, seen), 9);
  }

  lemma {:induction false} CountBound(checks: seq<Outcome>, k: nat)
    requires k <= |checks|
    ensures FailedCount(checks, k) <= k
    ensures FailedCount(checks, k) == 0 <==> forall i :: 0 <= i < k ==> !checks[i].failed
  {
    if k > 0 {
      CountBound(checks, k - 1);
    }
  }

  /** The sets after `validatePage`: slug and title always added, the primary keyword only when present. */
  function Record(page: Page, seen: Seen): (r: Seen)
    ensures page.slug in r.slugs && page.title in r.titles
    ensures r.slugs == seen.slugs + {page.slug} && r.titles == seen.titles + {page.title}
    ensures r.keywords == if Truthy(page.primaryKeyword) then seen.keywords + {page.primaryKeyword.value} else seen.keywords
  {
    Seen(seen.slugs + {page.slug}, seen.titles + {page.title},
         if Truthy(page.primaryKeyword) then seen.keywords + {page.primaryKeyword.value} else seen.keywords)
  }

  /** Each call grows each set by at most one value. */
  lemma RecordGrowsByAtMostOne(page: Page, seen: Seen)
    ensures |seen.slugs| <= |Record(page, seen).slugs| <= |seen.slugs| + 1
    ensures |seen.titles| <= |Record(page, seen).titles| <= |seen.titles| + 1
    ensures |seen.keywords| <= |Record(page, seen).keywords| <= |seen.keywords| + 1
  {
    var r := Record(page, seen);
    SetAddOne(seen.slugs, page.slug);
    SetAddOne(seen.titles, page.title);
    if Truthy(page.primaryKeyword) {
      SetAddOne(seen.keywords, page.primaryKeyword.value);
    }
  }

  lemma SetAddOne(s: set<string>, x: string)
    ensures |s| <= |s + {x}| <= |s| + 1
  {
    if x in s {
      assert s + {x} == s;
    } else {
      assert |s + {x}| == |s| + 1;
    }
  }

  /** The state of the three sets after validating `pages` in order. */
  function SeenAfter(pages: seq<Page>, seen: Seen): Seen
    decreases |pages|
  {
    if |pages| == 0 then seen
    else Record(pages[|pages| - 1], SeenAfter(pages[..|pages| - 1], seen))
  }

  /** The results of validating `pages` in order, each against the values of the pages before it. */
  function ValidateRun(pages: seq<Page>, seen: Seen): (r: seq<ValidationResult>)
    ensures |r| == |pages|
    decreases |pages|
  {
    if |pages| == 0 then []
    else
      var n := |pages| - 1;
      ValidateRun(pages[..n], seen) + [Check(pages[n], SeenAfter(pages[..n], seen))]
  }

  function SlugSet(pages: seq<Page>): set<string> {
    set i | 0 <= i < |pages| :: pages[i].slug
  }

  /** After a run from the empty state the seen slugs are exactly the slugs of the run. */
  lemma {:induction false} SeenSlugsAfterRun(pages: seq<Page>, seen: Seen)
    ensures SeenAfter(pages, seen).slugs == seen.slugs + SlugSet(pages)
    decreases |pages|
  {
    if |pages| > 0 {
      var n := |pages| - 1;
      SeenSlugsAfterRun(pages[..n], seen);
      assert SlugSet(pages) == SlugSet(pages[..n]) + {pages[n].slug} by {
        forall s | s in SlugSet(pages) ensures s in SlugSet(pages[..n]) + {pages[n].slug} {
          var i :| 0 <= i < |pages| && pages[i].slug == s;
          if i < n {
            assert pages[..n][i] == pages[i];
          }
        }
        forall s | s in SlugSet(pages[..n]) ensures s in SlugSet(pages) {
          var i :| 0 <= i < n && pages[..n][i].slug == s;
          assert pages[i].slug == s;
        }
      }
    }
  }

  /** The i-th result of a run is the check of page i against the pages before it. */
  lemma {:induction false} ValidateRunAt(pages: seq<Page>, seen: Seen, i: nat)
    requires i < |pages|
    ensures ValidateRun(pages, seen)[i] == Check(pages[i], SeenAfter(pages[..i], seen))
    decreases |pages|
  {
    var n := |pages| - 1;
    var front := pages[..n];
    assert ValidateRun(pages, seen) == ValidateRun(front, seen) + [Check(pages[n], SeenAfter(front, seen))];
    if i < n {
      ValidateRunAt(front, seen, i);
      assert front[..i] == pages[..i];
      assert front[i] == pages[i];
    } else {
      assert front == pages[..i];
    }
  }

  /**
   * In a run from the empty state, page i gets a duplicate-slug error exactly
   * when an earlier page has the same slug: the first page with a slug is
   * never flagged.
   */
  lemma DuplicateSlugIffEarlier(pages: seq<Page>, i: nat)
    requires i < |pages|
    ensures DuplicateSlug(pages[i].slug) in ValidateRun(pages, Empty)[i].errors
        <==> exists j :: 0 <= j < i && pages[j].slug == pages[i].slug
  {
    var seen := SeenAfter(pages[..i], Empty);
    var r := ValidateRun(pages, Empty)[i];
    ValidateRunAt(pages, Empty, i);
    assert r == Check(pages[i], seen);
    SeenSlugsAfterRun(pages[..i], Empty);
    assert seen.slugs == SlugSet(pages[..i]);
    CheckDuplicates(pages[i], seen);
    assert DuplicateSlug(pages[i].slug) in r.errors <==> pages[i].slug in SlugSet(pages[..i]);
    SlugSetPrefix(pages, i, pages[i].slug);
  }

  lemma SlugSetPrefix(pages: seq<Page>, i: nat, x: string)
    requires i <= |pages|
    ensures x in SlugSet(pages[..i]) <==> exists j :: 0 <= j < i && pages[j].slug == x
  {
    if exists j :: 0 <= j < i && pages[j].slug == x {
      var j :| 0 <= j < i && pages[j].slug == x;
      assert pages[..i][j].slug == x;
    }
  }

  /** `getStats` counts distinct slugs: after a run from the empty state it is the number of distinct slugs in the run. */
  lemma StatsCountDistinctSlugs(pages: seq<Page>)
    ensures |SeenAfter(pages, Empty).slugs| == |SlugSet(pages)|
  {
    SeenSlugsAfterRun(pages, Empty);
  }

  /** Checks 4 to 9 of `validatePage`, the ones that read only the page itself. */
  method PushPageChecks(page: Page, ghost seen: Seen, errors: seq<ValidationError>) returns (out: seq<ValidationError>)
    requires errors == FailuresUpTo(Outcomes(page, seen), 3)
    ensures out == Failures(Outcomes(page, seen))
  {
    ghost var checks := Outcomes(page, seen);
    out := errors;
    var contentLength := |page.htmlContent|;
    var minLength := MinContentLength(page.playbook);
    if contentLength < minLength {
      out := out + [ContentTooShort(contentLength, minLength)];
    }
    assert out == FailuresUpTo(checks, 4);
    if |page.title| == 0 { out := out + [MissingTitle]; }
    assert out == FailuresUpTo(checks, 5);
    if |page.metaDescription| == 0 { out := out + [MissingMetaDescription]; }
    assert out == FailuresUpTo(checks, 6);
    if |page.h1| == 0 { out := out + [MissingH1]; }
    assert out == FailuresUpTo(checks, 7);
    if |page.slug| == 0 { out := out + [MissingSlug]; }
    assert out == FailuresUpTo(checks, 8);
    if page.internalLinks.None? || |page.internalLinks.value| < 3 {
      out := out + [InsufficientInternalLinks(LinkCount(page))];
    }
    assert out == FailuresUpTo(checks, 9);
  }

  /** The module-level sets of the source, with the three operations on them. */
  class Validator {
    var seenSlugs: set<string>
    var seenTitles: set<string>
    var seenKeywords: set<string>

    function State(): Seen
      reads this
    {
      Seen(seenSlugs, seenTitles, seenKeywords)
    }

    constructor()
      ensures State() == Empty
    {
      seenSlugs, seenTitles, seenKeywords := {}, {}, {};
    }

    /** `resetValidation`: all three sets become empty. */
    method Reset()
      modifies this
      ensures State() == Empty
    {
      seenSlugs := {};
      seenTitles := {};
      seenKeywords := {};
    }

    /** `validatePage`: checks against the sets as they were, then records the page, duplicate or not. */
    method ValidatePage(page: Page) returns (r: ValidationResult)
      modifies this
      ensures r == Check(page, old(State()))
      ensures State() == Record(page, old(State()))
    {
      ghost var seen := State();
      ghost var checks := Outcomes(page, seen);
      var errors: seq<ValidationError> := [];
      if page.slug in seenSlugs {
        errors := errors + [DuplicateSlug(page.slug)];
      }
      seenSlugs := seenSlugs + {page.slug};
      assert errors == FailuresUpTo(checks, 1);
      if page.title in seenTitles {
        errors := errors + [DuplicateTitle(page.title)];
      }
      seenTitles := seenTitles + {page.title};
      assert errors == FailuresUpTo(checks, 2);
      if Truthy(page.primaryKeyword) && page.primaryKeyword.value in seenKeywords {
        errors := errors + [DuplicatePrimaryKeyword(page.primaryKeyword.value)];
      }
      if Truthy(page.primaryKeyword) {
        seenKeywords := seenKeywords + {page.primaryKeyword.value};
      }
      assert errors == FailuresUpTo(checks, 3);
      errors := PushPageChecks(page, seen, errors);
      r := ValidationResult(|errors| == 0, errors, page.slug);
    }

    /** `getStats`: the sizes of the three sets, i.e. the numbers of distinct values seen. */
    method GetStats() returns (s: Stats)
      ensures s == Stats(|seenSlugs|, |seenTitles|, |seenKeywords|)
    {
      s := Stats(|seenSlugs|, |seenTitles|, |seenKeywords|);
    }
  }
}
