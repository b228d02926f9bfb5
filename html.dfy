/**
 * The HTML helpers of the generator: `escHtml`, the related-pages section
 * `internalLinksHtml` and the `breadcrumbs` trail. Only their structure is
 * modelled; the literal markup is kept where the helpers emit it.
 */
module Html {
  import opened Wrappers
  import opened Strings
  import opened Slug
  import opened Pages

  // ---------------------------------------------------------------- escHtml

  /** `s.replace(/c/g, rep)` for a one-character pattern: every occurrence of `c` becomes `rep`. */
  function ReplaceAll(s: string, c: char, rep: string): string
    decreases |s|
  {
    if |s| == 0 then "" else (if s[0] == c then rep else [s[0]]) + ReplaceAll(s[1..], c, rep)
  }

  /**
   * `(str || '')` followed by the four global replacements, `&` first: an
   * absent or empty value becomes the empty string.
   */
  function EscHtml(str: Option<string>): (r: string)
    ensures r == EscapeChars(str.GetOr(""))
    ensures MarkupFree(r) && |r| >= |str.GetOr("")|
    ensures !Truthy(str) ==> r == ""
  {
    var s := str.GetOr("");
    ChainPerChar(s);
    EscapeCharsSafe(s);
    Chain(s)
  }

  /** The entity a single character is written as. */
  function EscChar(c: char): string {
    if c == '&' then "&amp;"
    else if c == '<' then "&lt;"
    else if c == '>' then "&gt;"
    else if c == '"' then "&quot;"
    else [c]
  }

  /** The reference escaping: each character replaced by its entity, independently of the others. */
  function EscapeChars(s: string): string
    decreases |s|
  {
    if |s| == 0 then "" else EscChar(s[0]) + EscapeChars(s[1..])
  }

  /** The inverse of the escaping: an entity is read back as its character, anything else is kept. */
  function Unescape(s: string): string
    decreases |s|
  {
    if |s| == 0 then ""
    else if IsPrefix("&amp;", s) then "&" + Unescape(s[5..])
    else if IsPrefix("&lt;", s) then "<" + Unescape(s[4..])
    else if IsPrefix("&gt;", s) then ">" + Unescape(s[4..])
    else if IsPrefix("&quot;", s) then "\"" + Unescape(s[6..])
    else [s[0]] + Unescape(s[1..])
  }

  /** A character that would end an attribute value or open or close a tag. */
  predicate IsMarkup(c: char) {
    c == '<' || c == '>' || c == '"'
  }

  predicate MarkupFree(s: string) {
    forall i :: 0 <= i < |s| ==> !IsMarkup(s[i])
  }

  lemma {:induction false} ReplaceAllAppend(a: string, b: string, c: char, rep: string)
    ensures ReplaceAll(a + b, c, rep) == ReplaceAll(a, c, rep) + ReplaceAll(b, c, rep)
    decreases |a|
  {
    if |a| > 0 {
      assert (a + b)[1..] == a[1..] + b;
      ReplaceAllAppend(a[1..], b, c, rep);
    } else {
      assert a + b == b;
    }
  }

  lemma {:induction false} ReplaceAllAbsent(s: string, c: char, rep: string)
    requires c !in s
    ensures ReplaceAll(s, c, rep) == s
    decreases |s|
  {
    if |s| > 0 {
      ReplaceAllAbsent(s[1..], c, rep);
    }
  }

  lemma ReplaceAllSingle(x: char, c: char, rep: string)
    ensures ReplaceAll([x], c, rep) == if x == c then rep else [x]
  {
    assert [x][1..] == "";
  }

  /** The replacements applied to the empty-defaulted string. */
  function Chain(s: string): string {
    ReplaceAll(ReplaceAll(ReplaceAll(ReplaceAll(s, '&', "&amp;"), '<', "&lt;"), '>', "&gt;"), '"', "&quot;")
  }

  lemma ChainAmp(x: char, e: string)
    requires x == '&' && e == "&amp;"
    ensures Chain([x]) == EscChar(x)
  {
    ReplaceAllSingle(x, '&', e);
    ReplaceAllAbsent(e, '<', "&lt;");
    ReplaceAllAbsent(e, '>', "&gt;");
    ReplaceAllAbsent(e, '"', "&quot;");
  }

  lemma ChainLt(x: char)
    requires x == '<'
    ensures Chain([x]) == EscChar(x)
  {
    ReplaceAllSingle(x, '&', "&amp;");
    ReplaceAllSingle(x, '<', "&lt;");
    var e := "&lt;";
    ReplaceAllAbsent(e, '>', "&gt;");
    ReplaceAllAbsent(e, '"', "&quot;");
  }

  lemma ChainGt(x: char)
    requires x == '>'
    ensures Chain([x]) == EscChar(x)
  {
    ReplaceAllSingle(x, '&', "&amp;");
    ReplaceAllSingle(x, '<', "&lt;");
    ReplaceAllSingle(x, '>', "&gt;");
    var e := "&gt;";
    ReplaceAllAbsent(e, '"', "&quot;");
  }

  lemma ChainOther(x: char)
    requires x != '&' && x != '<' && x != '>'
    ensures Chain([x]) == EscChar(x)
  {
    ReplaceAllSingle(x, '&', "&amp;");
    ReplaceAllSingle(x, '<', "&lt;");
    ReplaceAllSingle(x, '>', "&gt;");
    ReplaceAllSingle(x, '"', "&quot;");
  }

  /** The later replacements leave an entity alone, so one character comes out as its entity. */
  lemma ChainChar(x: char)
    ensures Chain([x]) == EscChar(x)
  {
    if x == '&' {
      ChainAmp(x, "&amp;");
    } else if x == '<' {
      ChainLt(x);
    } else if x == '>' {
      ChainGt(x);
    } else {
      ChainOther(x);
    }
  }

  lemma ChainAppend(a: string, b: string)
    ensures Chain(a + b) == Chain(a) + Chain(b)
  {
    var a1, b1 := ReplaceAll(a, '&', "&amp;"), ReplaceAll(b, '&', "&amp;");
    ReplaceAllAppend(a, b, '&', "&amp;");
    var a2, b2 := ReplaceAll(a1, '<', "&lt;"), ReplaceAll(b1, '<', "&lt;");
    ReplaceAllAppend(a1, b1, '<', "&lt;");
    var a3, b3 := ReplaceAll(a2, '>', "&gt;"), ReplaceAll(b2, '>', "&gt;");
    ReplaceAllAppend(a2, b2, '>', "&gt;");
    ReplaceAllAppend(a3, b3, '"', "&quot;");
  }

  /**
   * Because `&` is replaced first, the chain of global replacements escapes
   * each character on its own: no entity is escaped a second time.
   */
  lemma {:induction false} ChainPerChar(s: string)
    ensures Chain(s) == EscapeChars(s)
    decreases |s|
  {
    if |s| > 0 {
      assert s == [s[0]] + s[1..];
      ChainAppend([s[0]], s[1..]);
      ChainChar(s[0]);
      ChainPerChar(s[1..]);
    }
  }

  /** The escaped text holds no `<`, `>` or `"`, and is never shorter than the text. */
  lemma {:induction false} EscapeCharsSafe(s: string)
    ensures MarkupFree(EscapeChars(s))
    ensures |EscapeChars(s)| >= |s|
    decreases |s|
  {
    if |s| > 0 {
      EscapeCharsSafe(s[1..]);
      var e, rest := EscChar(s[0]), EscapeChars(s[1..]);
      assert MarkupFree(e);
      forall i | 0 <= i < |e + rest| ensures !IsMarkup((e + rest)[i]) {
        if i >= |e| {
          assert (e + rest)[i] == rest[i - |e|];
        }
      }
    }
  }

  lemma UnescapeAmp(rest: string)
    ensures Unescape("&amp;" + rest) == "&" + Unescape(rest)
  {
    var s := "&amp;" + rest;
    assert s[..5] == "&amp;" && s[5..] == rest;
  }

  lemma UnescapeLt(rest: string)
    ensures Unescape("&lt;" + rest) == "<" + Unescape(rest)
  {
    var s := "&lt;" + rest;
    assert s[1] == 'l';
    assert s[..4] == "&lt;" && s[4..] == rest;
  }

  lemma UnescapeGt(rest: string)
    ensures Unescape("&gt;" + rest) == ">" + Unescape(rest)
  {
    var s := "&gt;" + rest;
    assert s[1] == 'g';
    assert s[..4] == "&gt;" && s[4..] == rest;
  }

  lemma UnescapeQuot(rest: string)
    ensures Unescape("&quot;" + rest) == "\"" + Unescape(rest)
  {
    var s := "&quot;" + rest;
    assert s[1] == 'q';
    assert s[..6] == "&quot;" && s[6..] == rest;
  }

  lemma UnescapePlain(c: char, rest: string)
    requires c != '&'
    ensures Unescape([c] + rest) == [c] + Unescape(rest)
  {
    var s := [c] + rest;
    assert s[0] == c && s[1..] == rest;
  }

  /** Reading an entity back: the text after it is unescaped on its own. */
  lemma UnescapeStep(c: char, rest: string)
    ensures Unescape(EscChar(c) + rest) == [c] + Unescape(rest)
  {
    if c == '&' {
      UnescapeAmp(rest);
    } else if c == '<' {
      UnescapeLt(rest);
    } else if c == '>' {
      UnescapeGt(rest);
    } else if c == '"' {
      UnescapeQuot(rest);
    } else {
      UnescapePlain(c, rest);
    }
  }

  /** Escaping loses nothing: the escaped text reads back as the original. */
  lemma {:induction false} UnescapeEscape(s: string)
    ensures Unescape(EscapeChars(s)) == s
    decreases |s|
  {
    if |s| > 0 {
      UnescapeStep(s[0], EscapeChars(s[1..]));
      UnescapeEscape(s[1..]);
    }
  }

  /** So two different texts never escape to the same markup. */
  lemma EscHtmlInjective(a: string, b: string)
    requires EscHtml(Some(a)) == EscHtml(Some(b))
    ensures a == b
  {
    UnescapeEscape(a);
    UnescapeEscape(b);
  }

  // ---------------------------------------------------------------- related pages

  /** `l.playbook || 'Guide'`. */
  function TagText(pb: Playbook): (r: string)
    ensures |r| > 0
    ensures |Name(pb)| > 0 ==> r == Name(pb)
  {
    if |Name(pb)| > 0 then Name(pb) else "Guide"
  }

  /** One related-page card: the link's url, its tag and its escaped title. */
  function Card(l: Link): string {
    "<a href=\"" + l.url + "\" class=\"related-card\">\n          <span class=\"related-tag\">" + TagText(l.playbook)
    + "</span>\n          <span class=\"related-title\">" + EscHtml(Some(l.title)) + "</span>\n        </a>"
  }

  function Cards(links: seq<Link>): (r: seq<string>)
    ensures |r| == |links|
    ensures forall i :: 0 <= i < |links| ==> r[i] == Card(links[i])
  {
    seq(|links|, i requires 0 <= i < |links| => Card(links[i]))
  }

  const RelatedHead := "\n    <section class=\"related-pages\">\n      <h2>Related Pages You Might Like</h2>\n      <div class=\"related-grid\">\n        "
  const RelatedTail := "\n      </div>\n    </section>"
  const CardSep := "\n        "

  /** `internalLinksHtml`: nothing for an absent or empty list, else the section with one card per link. */
  function InternalLinksHtml(links: Option<seq<Link>>): (r: string)
    ensures r == "" <==> links.None? || |links.value| == 0
    ensures r != "" ==> IsPrefix(RelatedHead, r) && r[|r| - |RelatedTail|..] == RelatedTail
  {
    if links.None? || |links.value| == 0 then ""
    else RelatedHead + Join(Cards(links.value), CardSep) + RelatedTail
  }

  /**
   * Every link's card appears in the section.
   */
  lemma InternalLinksShape(links: Option<seq<Link>>)
    ensures links.Some? ==> forall i :: 0 <= i < |links.value| ==> Includes(InternalLinksHtml(links), Card(links.value[i]))
  {
    if links.Some? && |links.value| > 0 {
      assert |InternalLinksHtml(links)| >= |RelatedHead|;
      forall i | 0 <= i < |links.value| ensures Includes(InternalLinksHtml(links), Card(links.value[i])) {
        FramedJoinIncludes(RelatedHead, Cards(links.value), CardSep, RelatedTail, i);
      }
    }
  }

  /** The cards keep the links' order, one separator between neighbours. */
  lemma InternalLinksOrder(links: seq<Link>)
    requires |links| > 0
    ensures InternalLinksHtml(Some(links)) == RelatedHead + Join(Cards(links), CardSep) + RelatedTail
    ensures |InternalLinksHtml(Some(links))| == |RelatedHead| + TotalLength(Cards(links)) + (|links| - 1) * |CardSep| + |RelatedTail|
  {
    JoinLength(Cards(links), CardSep);
  }

  // ---------------------------------------------------------------- breadcrumbs

  datatype Crumb = Crumb(name: string, url: string)

  /** The current page: plain text. */
  function CurrentCrumb(c: Crumb): string {
    "<span class=\"bc-current\">" + EscHtml(Some(c.name)) + "</span>"
  }

  /** An earlier page: a link to it. */
  function LinkCrumb(c: Crumb): string {
    "<a href=\"" + c.url + "\">" + EscHtml(Some(c.name)) + "</a>"
  }

  /** The last item is rendered as the current page, every earlier one as a link. */
  function Crumbs(items: seq<Crumb>): (r: seq<string>)
    ensures |r| == |items|
    ensures forall i :: 0 <= i < |items| ==>
      r[i] == if i == |items| - 1 then CurrentCrumb(items[i]) else LinkCrumb(items[i])
  {
    seq(|items|, i requires 0 <= i < |items| => if i == |items| - 1 then CurrentCrumb(items[i]) else LinkCrumb(items[i]))
  }

  const CrumbSep := " <span class=\"bc-sep\">/</span> "
  const NavOpen := "<nav class=\"breadcrumbs\" aria-label=\"breadcrumb\">"
  const NavClose := "</nav>"

  /** The rendered items, separated, inside the nav wrapper. */
  function Breadcrumbs(items: seq<Crumb>): (r: string)
    ensures IsPrefix(NavOpen, r) && |r| >= |NavOpen| + |NavClose|
    ensures r[|r| - |NavClose|..] == NavClose
  {
    NavOpen + Join(Crumbs(items), CrumbSep) + NavClose
  }

  /**
   * A trail of n items holds n - 1 separators: its length is the nav
   * wrapper, the rendered items and n - 1 separators.
   */
  lemma BreadcrumbsLength(items: seq<Crumb>)
    requires |items| > 0
    ensures |Breadcrumbs(items)| == |NavOpen| + TotalLength(Crumbs(items)) + (|items| - 1) * |CrumbSep| + |NavClose|
  {
    JoinLength(Crumbs(items), CrumbSep);
  }

  /** The trail shows the last item as the current page and links every earlier one. */
  lemma BreadcrumbsItems(items: seq<Crumb>, i: nat)
    requires i < |items|
    ensures i == |items| - 1 ==> Includes(Breadcrumbs(items), CurrentCrumb(items[i]))
    ensures i < |items| - 1 ==> Includes(Breadcrumbs(items), LinkCrumb(items[i]))
  {
    FramedJoinIncludes(NavOpen, Crumbs(items), CrumbSep, NavClose, i);
  }
}
