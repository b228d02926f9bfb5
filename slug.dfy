/**
 * Slug and URL utilities: `toSlug` turns a human title into a URL slug by
 * five successive rewrites, and `buildUrl`/`buildFilePath` place a slug in
 * the output tree according to its playbook.
 */
module Slug {
  import opened Strings

  /** The content-category tag of a page; unknown tags are kept as `Other`. */
  datatype Playbook = Location | Persona | Curation | Comparison | Glossary | Directory | Other(tag: string)

  /** The tag as the source spells it. */
  function Name(pb: Playbook): string {
    match pb
    case Location => "location"
    case Persona => "persona"
    case Curation => "curation"
    case Comparison => "comparison"
    case Glossary => "glossary"
    case Directory => "directory"
    case Other(t) => t
  }

  /** Reads a tag string; `Other` holds every string that is not a known tag. */
  function Parse(tag: string): (pb: Playbook)
    ensures Name(pb) == tag
  {
    if tag == "location" then Location
    else if tag == "persona" then Persona
    else if tag == "curation" then Curation
    else if tag == "comparison" then Comparison
    else if tag == "glossary" then Glossary
    else if tag == "directory" then Directory
    else Other(tag)
  }

  /** A playbook value in the form `Parse` produces: `Other` never spells a known tag. */
  predicate Canonical(pb: Playbook) {
    pb.Other? ==> Parse(pb.tag) == pb
  }

  /** Tag strings and canonical playbooks correspond one to one. */
  lemma ParseName(pb: Playbook)
    requires Canonical(pb)
    ensures Parse(Name(pb)) == pb
  {
  }

  // ---------------------------------------------------------------------
  // toSlug
  // ---------------------------------------------------------------------

  /** JavaScript's `\s`: the ASCII white space, no-break and Unicode space separators, line/paragraph separators and the BOM. */
  predicate IsJsSpace(c: char) {
    c in JsSpaces
  }

  const JsSpaces: set<char> := {
    ' ', '\t', '\n', '\r', '\U{0B}', '\U{0C}', '\U{A0}', '\U{1680}',
    '\U{2000}', '\U{2001}', '\U{2002}', '\U{2003}', '\U{2004}', '\U{2005}',
    '\U{2006}', '\U{2007}', '\U{2008}', '\U{2009}', '\U{200A}',
    '\U{2028}', '\U{2029}', '\U{202F}', '\U{205F}', '\U{3000}', '\U{FEFF}'
  }

  /** The characters a slug is made of: `[a-z0-9-]`. */
  predicate IsSlugChar(c: char) {
    ('a' <= c <= 'z') || ('0' <= c <= '9') || c == '-'
  }

  predicate AllSlugChars(s: string) {
    forall i :: 0 <= i < |s| ==> IsSlugChar(s[i])
  }

  predicate NoDoubleDash(s: string) {
    forall i :: 0 <= i < |s| - 1 ==> !(s[i] == '-' && s[i + 1] == '-')
  }

  /** The normal form `toSlug` produces. */
  predicate IsSlug(s: string) {
    && AllSlugChars(s)
    && NoDoubleDash(s)
    && (|s| > 0 ==> s[0] != '-' && s[|s| - 1] != '-')
  }

  /** Rewrite 2, `.replace(/[&]/g, 'and')`. */
  function ExpandAmpersands(s: string): string
    decreases |s|
  {
    if |s| == 0 then ""
    else (if s[0] == '&' then "and" else [s[0]]) + ExpandAmpersands(s[1..])
  }

  /** Rewrite 3, `.replace(/[^a-z0-9\s-]/g, '')`. */
  function StripDisallowed(s: string): string
    decreases |s|
  {
    if |s| == 0 then ""
    else (if IsSlugChar(s[0]) || IsJsSpace(s[0]) then [s[0]] else []) + StripDisallowed(s[1..])
  }

  /** Drops the leading run of characters that satisfy `p`. */
  function DropRun(s: string, p: char -> bool): (r: string)
    ensures |r| <= |s| && r == s[|s| - |r|..]
    ensures |r| > 0 ==> !p(r[0])
    ensures |s| > 0 && p(s[0]) ==> |r| < |s|
    decreases |s|
  {
    if |s| > 0 && p(s[0]) then DropRun(s[1..], p) else s
  }

  /**
   * A global regex replace of `/[class]+/g` by '-': each maximal run of
   * characters that satisfy `p` becomes one dash.
   */
  function SquashRuns(s: string, p: char -> bool): (r: string)
    ensures |s| > 0 ==> |r| > 0 && r[0] == (if p(s[0]) then '-' else s[0])
    decreases |s|
  {
    if |s| == 0 then ""
    else if p(s[0]) then "-" + SquashRuns(DropRun(s, p), p)
    else [s[0]] + SquashRuns(s[1..], p)
  }

  /** Rewrite 4, `.replace(/\s+/g, '-')`. */
  function SpacesToDash(s: string): string {
    SquashRuns(s, IsJsSpace)
  }

  predicate IsDash(c: char) { c == '-' }

  /** Rewrite 5, `.replace(/-+/g, '-')`. */
  function CollapseDashes(s: string): string {
    SquashRuns(s, IsDash)
  }

  /**
   * Rewrite 6, `.replace(/^-|-$/g, '')`: one leading dash and, in what
   * remains, one trailing dash are removed.
   */
  function TrimDashes(s: string): string {
    var t := if |s| > 0 && s[0] == '-' then s[1..] else s;
    if |t| > 0 && t[|t| - 1] == '-' then t[..|t| - 1] else t
  }

  /** Rewrites 1 to 6 in the order the source chains them. */
  function ToSlug(text: string): (r: string)
    ensures IsSlug(r)
  {
    var expanded := ExpandAmpersands(LowerAscii(text));
    var stripped := StripDisallowed(expanded);
    var collapsed := CollapseDashes(SpacesToDash(stripped));
    StripDisallowedChars(expanded);
    SquashRunsChars(stripped, IsJsSpace);
    SquashRunsChars(SpacesToDash(stripped), IsDash);
    SquashRunsNoDoubleDash(SpacesToDash(stripped), IsDash);
    TrimResult(collapsed);
    TrimDashes(collapsed)
  }

  /** Rewrite 2 leaves a string without `&` unchanged. */
  lemma {:induction false} ExpandAmpersandsIdentity(s: string)
    requires forall i :: 0 <= i < |s| ==> s[i] != '&'
    ensures ExpandAmpersands(s) == s
    decreases |s|
  {
    if |s| > 0 {
      ExpandAmpersandsIdentity(s[1..]);
    }
  }

  /** Every character is allowed by rewrite 3: `[a-z0-9-]` or white space. */
  predicate SlugOrSpaceChars(s: string) {
    forall i :: 0 <= i < |s| ==> IsSlugChar(s[i]) || IsJsSpace(s[i])
  }

  /** Rewrite 3 keeps only `[a-z0-9-]` and white space. */
  lemma {:induction false} StripDisallowedChars(s: string)
    ensures SlugOrSpaceChars(StripDisallowed(s))
    decreases |s|
  {
    if |s| > 0 {
      var tail := StripDisallowed(s[1..]);
      StripDisallowedChars(s[1..]);
      var r := StripDisallowed(s);
      if IsSlugChar(s[0]) || IsJsSpace(s[0]) {
        assert r == [s[0]] + tail;
        forall i | 1 <= i < |r| ensures IsSlugChar(r[i]) || IsJsSpace(r[i]) {
          assert r[i] == tail[i - 1];
        }
      } else {
        assert r == tail;
      }
    }
  }

  /** Rewrite 3 keeps a string made only of `[a-z0-9-]` and white space whole. */
  lemma {:induction false} StripDisallowedIdentity(s: string)
    requires SlugOrSpaceChars(s)
    ensures StripDisallowed(s) == s
    decreases |s|
  {
    if |s| > 0 {
      StripDisallowedIdentity(s[1..]);
      assert [s[0]] + s[1..] == s;
    }
  }

  /**
   * A run replacement turns a string of slug characters and run characters
   * into slug characters only.
   */
  lemma {:induction false} SquashRunsChars(s: string, p: char -> bool)
    requires forall i :: 0 <= i < |s| ==> IsSlugChar(s[i]) || p(s[i])
    ensures AllSlugChars(SquashRuns(s, p))
    decreases |s|
  {
    if |s| > 0 {
      if p(s[0]) {
        var d := DropRun(s, p);
        assert forall i :: 0 <= i < |d| ==> d[i] == s[|s| - |d| + i];
        SquashRunsChars(d, p);
      } else {
        SquashRunsChars(s[1..], p);
      }
    }
  }

  /** When every dash is a run character, the result has no two dashes in a row. */
  lemma {:induction false} SquashRunsNoDoubleDash(s: string, p: char -> bool)
    requires forall i :: 0 <= i < |s| ==> s[i] == '-' ==> p(s[i])
    ensures NoDoubleDash(SquashRuns(s, p))
    decreases |s|
  {
    if |s| > 0 {
      if p(s[0]) {
        var d := DropRun(s, p);
        assert forall i :: 0 <= i < |d| ==> d[i] == s[|s| - |d| + i];
        SquashRunsNoDoubleDash(d, p);
      } else {
        SquashRunsNoDoubleDash(s[1..], p);
      }
    }
  }

  /**
   * When no two run characters are adjacent, every run has length one and
   * the replacement is character by character.
   */
  lemma {:induction false} SquashRunsIsolated(s: string, p: char -> bool)
    requires forall i :: 0 <= i < |s| - 1 ==> !(p(s[i]) && p(s[i + 1]))
    ensures |SquashRuns(s, p)| == |s|
    ensures forall i :: 0 <= i < |s| ==> SquashRuns(s, p)[i] == if p(s[i]) then '-' else s[i]
    decreases |s|
  {
    if |s| > 0 {
      if p(s[0]) {
        assert DropRun(s, p) == s[1..];
      }
      SquashRunsIsolated(s[1..], p);
    }
  }

  /**
   * A run replacement leaves a string alone when its only run characters are
   * single dashes: every string without white space for rewrite 4, every
   * string without "--" for rewrite 5.
   */
  lemma SquashRunsIdentity(s: string, p: char -> bool)
    requires forall i :: 0 <= i < |s| && p(s[i]) ==> s[i] == '-' && (i + 1 < |s| ==> !p(s[i + 1]))
    ensures SquashRuns(s, p) == s
  {
    SquashRunsIsolated(s, p);
  }

  /** After the collapse there is at most one dash at either end, and the trim removes it. */
  lemma TrimResult(s: string)
    requires AllSlugChars(s) && NoDoubleDash(s)
    ensures IsSlug(TrimDashes(s))
  {
    var t := if |s| > 0 && s[0] == '-' then s[1..] else s;
    assert AllSlugChars(t) && NoDoubleDash(t);
    assert |t| > 0 ==> t[0] != '-';
  }

  lemma SlugCharNotSpace(c: char)
    requires IsSlugChar(c)
    ensures !IsJsSpace(c) && !IsUpperAscii(c) && c != '&'
  {
  }

  /** A string already in normal form is its own slug. */
  lemma ToSlugFixesSlugs(s: string)
    requires IsSlug(s)
    ensures ToSlug(s) == s
  {
    SlugCaseAndAmpersands(s);
    SlugStripAndSpaces(s);
    SquashRunsIdentity(s, IsDash);
    assert CollapseDashes(s) == s;
    assert TrimDashes(s) == s;
  }

  /** A slug has no upper-case letter and no ampersand, so rewrites 1 and 2 keep it. */
  lemma SlugCaseAndAmpersands(s: string)
    requires IsSlug(s)
    ensures LowerAscii(s) == s && ExpandAmpersands(s) == s
  {
    forall i | 0 <= i < |s| ensures !IsUpperAscii(s[i]) && s[i] != '&' {
      SlugCharNotSpace(s[i]);
    }
    LowerAsciiIdentity(s);
    ExpandAmpersandsIdentity(s);
  }

  /** A slug has only kept characters and no white space, so rewrites 3 and 4 keep it. */
  lemma SlugStripAndSpaces(s: string)
    requires IsSlug(s)
    ensures StripDisallowed(s) == s && SpacesToDash(s) == s
  {
    forall i | 0 <= i < |s| ensures !IsJsSpace(s[i]) {
      SlugCharNotSpace(s[i]);
    }
    StripDisallowedIdentity(s);
    SquashRunsIdentity(s, IsJsSpace);
  }

  /**
   * Joining two slugs with " & " yields them joined by "-and-": the
   * ampersand is spelt out and each surrounding space becomes a dash.
   */
  lemma ToSlugAmpersand(a: string, b: string)
    requires IsSlug(a) && IsSlug(b) && |a| > 0 && |b| > 0
    ensures ToSlug(a + " & " + b) == a + "-and-" + b
  {
    var spaced := a + " and " + b;
    var dashed := a + "-and-" + b;
    AmpersandLowerExpand(a, b);
    AmpersandStripDash(a, b);
    assert a[|a| - 1] != '-' && b[0] != '-';
    SquashRunsIdentity(dashed, IsDash);
    assert CollapseDashes(dashed) == dashed;
  }

  lemma AmpersandLowerExpand(a: string, b: string)
    requires AllSlugChars(a) && AllSlugChars(b)
    ensures ExpandAmpersands(LowerAscii(a + " & " + b)) == a + " and " + b
  {
    AmpersandLower(a, b);
    AmpersandExpand(a, b);
  }

  lemma AmpersandLower(a: string, b: string)
    requires AllSlugChars(a) && AllSlugChars(b)
    ensures LowerAscii(a + " & " + b) == a + " & " + b
  {
    var text := a + " & " + b;
    forall i | 0 <= i < |text| ensures !IsUpperAscii(text[i]) {
      if i < |a| {
        SlugCharNotSpace(a[i]);
      } else if |a| + 3 <= i {
        assert text[i] == b[i - |a| - 3];
        SlugCharNotSpace(b[i - |a| - 3]);
      }
    }
    LowerAsciiIdentity(text);
  }

  lemma AmpersandExpand(a: string, b: string)
    requires AllSlugChars(a) && AllSlugChars(b)
    ensures ExpandAmpersands(a + " & " + b) == a + " and " + b
  {
    forall i | 0 <= i < |a| ensures a[i] != '&' {
      SlugCharNotSpace(a[i]);
    }
    forall i | 0 <= i < |b| ensures b[i] != '&' {
      SlugCharNotSpace(b[i]);
    }
    ExpandAmpersandsConcat(a, " & " + b);
    ExpandAmpersandsConcat(" & ", b);
    ExpandAmpersandsIdentity(a);
    ExpandAmpersandsIdentity(b);
    assert ExpandAmpersands(" & ") == " and ";
    AppendAssoc(a, " & ", b);
  }

  lemma AmpersandStripDash(a: string, b: string)
    requires AllSlugChars(a) && AllSlugChars(b)
    ensures SpacesToDash(StripDisallowed(a + " and " + b)) == a + "-and-" + b
  {
    var spaced := a + " and " + b;
    var dashed := a + "-and-" + b;
    var n := |a|;
    SpacedWordChars(a, b);
    StripDisallowedIdentity(spaced);
    SquashRunsIsolated(spaced, IsJsSpace);
    var r := SquashRuns(spaced, IsJsSpace);
    assert |r| == |dashed|;
    forall i | 0 <= i < |r| ensures r[i] == dashed[i] {
      assert r[i] == if IsJsSpace(spaced[i]) then '-' else spaced[i];
      if i < n {
        assert spaced[i] == a[i] == dashed[i];
      } else if n + 5 <= i {
        assert spaced[i] == b[i - n - 5] == dashed[i];
      }
    }
  }

  /** In `a + " and " + b` with `a` and `b` made of slug characters, the only white space is the two spaces. */
  lemma SpacedWordChars(a: string, b: string)
    requires AllSlugChars(a) && AllSlugChars(b)
    ensures SlugOrSpaceChars(a + " and " + b)
    ensures forall i :: 0 <= i < |a + " and " + b| ==> (IsJsSpace((a + " and " + b)[i]) <==> i == |a| || i == |a| + 4)
  {
    var spaced := a + " and " + b;
    var n := |a|;
    forall i | 0 <= i < |spaced|
      ensures IsSlugChar(spaced[i]) || IsJsSpace(spaced[i])
      ensures IsJsSpace(spaced[i]) <==> i == n || i == n + 4
    {
      if i < n {
        assert spaced[i] == a[i];
        SlugCharNotSpace(a[i]);
      } else if n + 5 <= i {
        assert spaced[i] == b[i - n - 5];
        SlugCharNotSpace(b[i - n - 5]);
      } else if i != n && i != n + 4 {
        assert spaced[i] in "and";
        SlugCharNotSpace(spaced[i]);
      } else {
        assert spaced[i] == ' ';
      }
    }
  }

  /** `toSlug` is idempotent. */
  lemma ToSlugIdempotent(text: string)
    ensures ToSlug(ToSlug(text)) == ToSlug(text)
  {
    ToSlugFixesSlugs(ToSlug(text));
  }

  /** Rewrite 2 works character by character, so it distributes over concatenation. */
  lemma {:induction false} ExpandAmpersandsConcat(a: string, b: string)
    ensures ExpandAmpersands(a + b) == ExpandAmpersands(a) + ExpandAmpersands(b)
    decreases |a|
  {
    if |a| == 0 {
      assert a + b == b;
    } else {
      assert (a + b)[1..] == a[1..] + b;
      ExpandAmpersandsConcat(a[1..], b);
    }
  }

  /** Rewrite 3 works character by character, so it distributes over concatenation. */
  lemma {:induction false} StripDisallowedConcat(a: string, b: string)
    ensures StripDisallowed(a + b) == StripDisallowed(a) + StripDisallowed(b)
    decreases |a|
  {
    if |a| == 0 {
      assert a + b == b;
    } else {
      var keep := if IsSlugChar(a[0]) || IsJsSpace(a[0]) then [a[0]] else [];
      assert (a + b)[0] == a[0];
      assert (a + b)[1..] == a[1..] + b;
      StripDisallowedConcat(a[1..], b);
      calc {
        StripDisallowed(a + b);
        keep + StripDisallowed(a[1..] + b);
        keep + (StripDisallowed(a[1..]) + StripDisallowed(b));
        (keep + StripDisallowed(a[1..])) + StripDisallowed(b);
      }
    }
  }

  /**
   * The title "Paying Guest & Co.": the ampersand is spelt out before the
   * stripping rewrite, the full stop is dropped and each space becomes a dash.
   */
  lemma ToSlugExample()
    ensures ToSlug("Paying Guest & Co.") == "paying-guest-and-co"
  {
    var title := "Paying Guest & Co.";
    var lowered := LowerAscii(title);
    ExampleLower(title);
    ExampleExpand(lowered);
    ExampleStrip(ExpandAmpersands(lowered));
    ExampleDash(StripDisallowed(ExpandAmpersands(lowered)));
    ExampleCollapse(SpacesToDash(StripDisallowed(ExpandAmpersands(lowered))));
  }

  lemma ExampleLower(t: string)
    requires t == "Paying Guest & Co."
    ensures LowerAscii(t) == "paying guest & co."
  {
  }

  lemma ExampleExpand(t: string)
    requires t == "paying guest & co."
    ensures ExpandAmpersands(t) == "paying guest and co."
  {
    var x, y := "paying guest ", " co.";
    ExampleAmpersandFree(x, y);
    AmpersandBetween(x, y);
    ExampleAmpersandWords();
  }

  lemma ExampleAmpersandFree(x: string, y: string)
    requires x == "paying guest " && y == " co."
    ensures forall i :: 0 <= i < |x| ==> x[i] != '&'
    ensures forall i :: 0 <= i < |y| ==> y[i] != '&'
  {
  }

  lemma ExampleAmpersandWords()
    ensures "paying guest & co." == "paying guest " + "&" + " co."
    ensures "paying guest and co." == "paying guest " + "and" + " co."
  {
  }

  /** A lone ampersand between ampersand-free text is the only thing rewrite 2 changes. */
  lemma AmpersandBetween(x: string, y: string)
    requires forall i :: 0 <= i < |x| ==> x[i] != '&'
    requires forall i :: 0 <= i < |y| ==> y[i] != '&'
    ensures ExpandAmpersands(x + "&" + y) == x + "and" + y
  {
    ExpandAmpersandsConcat(x, "&" + y);
    ExpandAmpersandsIdentity(x);
    AmpersandHead(y);
    ExpandAmpersandsIdentity(y);
    AppendAssoc(x, "&", y);
    AppendAssoc(x, "and", y);
  }

  lemma AmpersandHead(y: string)
    ensures ExpandAmpersands("&" + y) == "and" + ExpandAmpersands(y)
  {
    var t := "&" + y;
    assert t[0] == '&' && t[1..] == y;
  }

  lemma ExampleStrip(t: string)
    requires t == "paying guest and co."
    ensures StripDisallowed(t) == "paying guest and co"
  {
    var x := "paying" + " " + "guest" + " " + "and" + " " + "co";
    SpacedWordsKept("paying", "guest", "and", "co");
    StripTrailingDot(x);
    ExampleWords();
  }

  /** A full stop after characters rewrite 3 keeps is the only thing it removes. */
  lemma StripTrailingDot(x: string)
    requires SlugOrSpaceChars(x)
    ensures StripDisallowed(x + ".") == x
  {
    StripDisallowedConcat(x, ".");
    StripDisallowedIdentity(x);
    assert StripDisallowed(".") == "";
  }

  /** Words of slug characters separated by single spaces hold only characters rewrite 3 keeps. */
  lemma SpacedWordsKept(a: string, b: string, c: string, d: string)
    requires AllSlugChars(a) && AllSlugChars(b) && AllSlugChars(c) && AllSlugChars(d)
    ensures SlugOrSpaceChars(a + " " + b + " " + c + " " + d)
  {
    assert IsJsSpace(' ');
    KeptAppend(a, " ");
    KeptAppend(a + " ", b);
    KeptAppend(a + " " + b, " ");
    KeptAppend(a + " " + b + " ", c);
    KeptAppend(a + " " + b + " " + c, " ");
    KeptAppend(a + " " + b + " " + c + " ", d);
  }

  lemma KeptAppend(x: string, y: string)
    requires SlugOrSpaceChars(x) && SlugOrSpaceChars(y)
    ensures SlugOrSpaceChars(x + y)
  {
    forall i | 0 <= i < |x + y| ensures IsSlugChar((x + y)[i]) || IsJsSpace((x + y)[i]) {
      if i >= |x| {
        assert (x + y)[i] == y[i - |x|];
      }
    }
  }

  lemma ExampleDash(t: string)
    requires t == "paying guest and co"
    ensures SpacesToDash(t) == "paying-guest-and-co"
  {
    FourWordsDash("paying", "guest", "and", "co");
    ExampleWords();
  }

  lemma ExampleWords()
    ensures "paying guest and co" == "paying" + " " + "guest" + " " + "and" + " " + "co"
    ensures "paying-guest-and-co" == "paying" + "-" + "guest" + "-" + "and" + "-" + "co"
    ensures "paying guest and co." == "paying" + " " + "guest" + " " + "and" + " " + "co" + "."
  {
    assert "paying guest and co" == "paying" + " " + "guest" + " " + "and" + " " + "co";
  }

  /** Four words of slug characters separated by single spaces come out separated by single dashes. */
  lemma FourWordsDash(a: string, b: string, c: string, d: string)
    requires AllSlugChars(a) && AllSlugChars(b) && AllSlugChars(c) && AllSlugChars(d)
    requires |b| > 0 && |c| > 0 && |d| > 0
    ensures SpacesToDash(a + " " + b + " " + c + " " + d) == a + "-" + b + "-" + c + "-" + d
  {
    WordKeepsSpaces(d);
    SpaceBecomesDash(c, d);
    var cd := c + " " + d;
    assert cd[0] == c[0];
    SpaceBecomesDash(b, cd);
    var bcd := b + " " + cd;
    assert bcd[0] == b[0];
    SpaceBecomesDash(a, bcd);
    Regroup(a, b, c, d, " ");
    Regroup(a, b, c, d, "-");
  }

  lemma Regroup(a: string, b: string, c: string, d: string, sep: string)
    ensures a + sep + b + sep + c + sep + d == a + sep + (b + sep + (c + sep + d))
  {
  }

  /** A word of slug characters passes rewrite 4 unchanged. */
  lemma WordKeepsSpaces(a: string)
    requires AllSlugChars(a)
    ensures SpacesToDash(a) == a
  {
    forall i | 0 <= i < |a| ensures !IsJsSpace(a[i]) {
      SlugCharNotSpace(a[i]);
    }
    SquashRunsKeep(a, "", IsJsSpace);
    assert a + "" == a;
  }

  /** A single space after a word of slug characters becomes one dash. */
  lemma SpaceBecomesDash(a: string, b: string)
    requires AllSlugChars(a) && |b| > 0 && IsSlugChar(b[0])
    ensures SpacesToDash(a + " " + b) == a + "-" + SpacesToDash(b)
  {
    forall i | 0 <= i < |a| ensures !IsJsSpace(a[i]) {
      SlugCharNotSpace(a[i]);
    }
    SquashRunsKeep(a, " " + b, IsJsSpace);
    SlugCharNotSpace(b[0]);
    SquashRunsSingle(' ', b, IsJsSpace);
    AppendAssoc(a, " ", b);
    AppendAssoc(a, "-", SpacesToDash(b));
  }

  /** A run of one character followed by a character outside the class becomes one dash. */
  lemma SquashRunsSingle(c: char, b: string, p: char -> bool)
    requires p(c) && |b| > 0 && !p(b[0])
    ensures SquashRuns([c] + b, p) == "-" + SquashRuns(b, p)
  {
    var t := [c] + b;
    assert t[0] == c && t[1..] == b;
    assert DropRun(b, p) == b;
    assert DropRun(t, p) == b;
  }

  /** A prefix with no run characters is copied through. */
  lemma {:induction false} SquashRunsKeep(a: string, s: string, p: char -> bool)
    requires forall i :: 0 <= i < |a| ==> !p(a[i])
    ensures SquashRuns(a + s, p) == a + SquashRuns(s, p)
    decreases |a|
  {
    if |a| == 0 {
      assert a + s == s;
    } else {
      SquashRunsKeepHead(a, s, p);
      SquashRunsKeep(a[1..], s, p);
      AppendAssoc([a[0]], a[1..], SquashRuns(s, p));
      assert [a[0]] + a[1..] == a;
    }
  }

  lemma SquashRunsKeepHead(a: string, s: string, p: char -> bool)
    requires |a| > 0 && !p(a[0])
    ensures SquashRuns(a + s, p) == [a[0]] + SquashRuns(a[1..] + s, p)
  {
    var t := a + s;
    assert t[0] == a[0];
    assert t[1..] == a[1..] + s;
  }

  lemma ExampleCollapse(t: string)
    requires t == "paying-guest-and-co"
    ensures TrimDashes(CollapseDashes(t)) == t
  {
    SquashRunsIdentity(t, IsDash);
  }

  // ---------------------------------------------------------------------
  // buildUrl / buildFilePath
  // ---------------------------------------------------------------------

  const UrlBase := "/pages/seo"

  /**
   * The output path of a page relative to the output root: glossary and
   * directory pages get their own sub-directory. The table is keyed by the
   * tag string, as the source's object lookup is.
   */
  function BuildFilePath(pb: Playbook, slug: string): (r: string)
    ensures Name(pb) == "glossary" ==> r == "glossary/" + slug + ".html"
    ensures Name(pb) == "directory" ==> r == "directory/" + slug + ".html"
    ensures Name(pb) != "glossary" && Name(pb) != "directory" ==> r == slug + ".html"
  {
    var tag := Name(pb);
    if tag == "glossary" then "glossary/" + slug + ".html"
    else if tag == "directory" then "directory/" + slug + ".html"
    else slug + ".html"
  }

  /**
   * The site URL of a page under `/pages/seo`: the six known tags have their
   * own entries, every other tag takes the default. The six entries and the
   * default collapse to three shapes.
   */
  function BuildUrl(pb: Playbook, slug: string): (r: string)
    ensures Name(pb) == "glossary" ==> r == UrlBase + "/glossary/" + slug + ".html"
    ensures Name(pb) == "directory" ==> r == UrlBase + "/directory/" + slug + ".html"
    ensures Name(pb) != "glossary" && Name(pb) != "directory" ==> r == UrlBase + "/" + slug + ".html"
    ensures |r| > |UrlBase| + |slug|
  {
    var tag := Name(pb);
    if tag == "location" then UrlBase + "/" + slug + ".html"
    else if tag == "persona" then UrlBase + "/" + slug + ".html"
    else if tag == "curation" then UrlBase + "/" + slug + ".html"
    else if tag == "comparison" then UrlBase + "/" + slug + ".html"
    else if tag == "glossary" then UrlBase + "/glossary/" + slug + ".html"
    else if tag == "directory" then UrlBase + "/directory/" + slug + ".html"
    else UrlBase + "/" + slug + ".html"
  }

  /** Every URL is the file path under `/pages/seo/`: the two maps partition the playbooks alike. */
  lemma BuildUrlFilePath(pb: Playbook, slug: string)
    ensures BuildUrl(pb, slug) == UrlBase + "/" + BuildFilePath(pb, slug)
  {
    var root := UrlBase + "/";
    var folder := Folder(pb);
    AppendAssoc(root, folder + slug, ".html");
    AppendAssoc(root, folder, slug);
    AppendAssoc(UrlBase, "/", folder);
    assert "/" + "glossary/" == "/glossary/";
    assert "/" + "directory/" == "/directory/";
    assert root + "" == root;
    assert "" + slug == slug;
  }

  /** The sub-directory a playbook's pages go to ("" for the output root). */
  function Folder(pb: Playbook): string {
    var tag := Name(pb);
    if tag == "glossary" then "glossary/"
    else if tag == "directory" then "directory/"
    else ""
  }

  lemma BuildFilePathFolder(pb: Playbook, slug: string)
    ensures BuildFilePath(pb, slug) == Folder(pb) + slug + ".html"
  {
  }

  /** For a fixed playbook, distinct slugs give distinct URLs. */
  lemma BuildUrlInjective(pb: Playbook, s1: string, s2: string)
    requires BuildUrl(pb, s1) == BuildUrl(pb, s2)
    ensures s1 == s2
  {
    var t1, t2 := BuildFilePath(pb, s1), BuildFilePath(pb, s2);
    SameUrlSamePath(pb, s1, pb, s2);
    BuildFilePathFolder(pb, s1);
    BuildFilePathFolder(pb, s2);
    var f := Folder(pb);
    assert |s1| == |s2|;
    assert s1 == t1[|f|..|f| + |s1|];
    assert s2 == t2[|f|..|f| + |s2|];
  }

  /** Equal URLs come from equal file paths. */
  lemma SameUrlSamePath(p1: Playbook, s1: string, p2: Playbook, s2: string)
    requires BuildUrl(p1, s1) == BuildUrl(p2, s2)
    ensures BuildFilePath(p1, s1) == BuildFilePath(p2, s2)
  {
    BuildUrlFilePath(p1, s1);
    BuildUrlFilePath(p2, s2);
    var root := UrlBase + "/";
    var t1, t2 := BuildFilePath(p1, s1), BuildFilePath(p2, s2);
    assert t1 == (root + t1)[|root|..];
    assert t2 == (root + t2)[|root|..];
  }

  /** Location and persona pages share one directory: equal slugs collide across those playbooks. */
  lemma BuildUrlSharedDirectory(slug: string)
    ensures BuildUrl(Location, slug) == BuildUrl(Persona, slug)
    ensures BuildUrl(Glossary, slug) != BuildUrl(Location, slug)
  {
    var g := BuildUrl(Glossary, slug);
    var l := BuildUrl(Location, slug);
    assert |g| != |l|;
  }

  predicate NoSlash(s: string) {
    forall i :: 0 <= i < |s| ==> s[i] != '/'
  }

  /** A slug (such as every `toSlug` result) has no '/'. */
  lemma SlugHasNoSlash(s: string)
    requires IsSlug(s)
    ensures NoSlash(s)
  {
    forall i | 0 <= i < |s| ensures s[i] != '/' {
      assert IsSlugChar(s[i]);
    }
  }

  /** The text up to and including the first '/', or "" when there is none. */
  function UpToSlash(t: string): string
    decreases |t|
  {
    if |t| == 0 then ""
    else if t[0] == '/' then "/"
    else
      var r := UpToSlash(t[1..]);
      if r == "" then "" else [t[0]] + r
  }

  lemma {:induction false} UpToSlashNone(t: string)
    requires NoSlash(t)
    ensures UpToSlash(t) == ""
    decreases |t|
  {
    if |t| > 0 {
      UpToSlashNone(t[1..]);
    }
  }

  lemma {:induction false} UpToSlashDir(w: string, rest: string)
    requires NoSlash(w)
    ensures UpToSlash(w + "/" + rest) == w + "/"
    decreases |w|
  {
    if |w| > 0 {
      assert (w + "/" + rest)[1..] == w[1..] + "/" + rest;
      UpToSlashDir(w[1..], rest);
    } else {
      assert w + "/" + rest == "/" + rest;
    }
  }

  /** The sub-directory of an output path is the part up to its first '/'. */
  lemma FolderOfPath(pb: Playbook, slug: string)
    requires NoSlash(slug)
    ensures UpToSlash(Folder(pb) + slug + ".html") == Folder(pb)
  {
    var tag := Name(pb);
    if tag == "glossary" {
      assert "glossary/" + slug + ".html" == "glossary" + "/" + (slug + ".html");
      UpToSlashDir("glossary", slug + ".html");
    } else if tag == "directory" {
      assert "directory/" + slug + ".html" == "directory" + "/" + (slug + ".html");
      UpToSlashDir("directory", slug + ".html");
    } else {
      assert NoSlash(slug + ".html");
      assert "" + slug + ".html" == slug + ".html";
      UpToSlashNone(slug + ".html");
    }
  }

  /**
   * For slugs without '/', two URLs agree only when the slugs agree and the
   * playbooks share a sub-directory.
   */
  lemma BuildUrlDistinctFolders(p1: Playbook, s1: string, p2: Playbook, s2: string)
    requires NoSlash(s1) && NoSlash(s2)
    requires BuildUrl(p1, s1) == BuildUrl(p2, s2)
    ensures s1 == s2 && Folder(p1) == Folder(p2)
  {
    SameUrlSamePath(p1, s1, p2, s2);
    BuildFilePathFolder(p1, s1);
    BuildFilePathFolder(p2, s2);
    var t := BuildFilePath(p1, s1);
    var f1, f2 := Folder(p1), Folder(p2);
    FolderOfPath(p1, s1);
    FolderOfPath(p2, s2);
    assert f1 == f2;
    assert |s1| == |s2|;
    assert s1 == t[|f1|..|f1| + |s1|];
    assert s2 == t[|f2|..|f2| + |s2|];
  }
}
