/**
 * How the crawlers pick article links out of one Google News result page:
 * the Selenium pass over the page's elements, then, when it finds nothing,
 * the BeautifulSoup pass over the page source. A link is unwrapped from
 * Google's `/url?q=` redirect, must start with `http` and must not point
 * back to Google. The BeautifulSoup pass also refuses an unwrapped link
 * that is already in `seen_links`; the Selenium pass looks the raw `href`
 * up there instead, before unwrapping it, and adds the unwrapped link.
 *
 * The page itself is an oracle: for each selector, in the order the source
 * tries them, the elements it matches, each given as its title text and the
 * `href` the DOM walk found for it (empty when none was found).
 */
module CrawlerLinks {
  import opened Wrappers
  import opened PyStr

  datatype Candidate = Candidate(title: string, href: string)

  /** An accepted result, `{'title': ..., 'link': ...}`. */
  datatype Link = Link(title: string, link: string)

  /**
   * What the Selenium pass looks up in `seen_links`: the raw `href`, as the
   * crawlers do, or the unwrapped link, as the BeautifulSoup pass does.
   */
  datatype SeenKey = RawHref | Unwrapped

  /** The two extraction passes of `extract_articles_from_page`. */
  datatype Pass = Selenium(key: SeenKey) | Soup

  const RedirectKey := "/url?q="

  /** `link.split('/url?q=')[1].split('&')[0]` when the link is a Google redirect. */
  function Unwrap(href: string): (link: string)
    ensures !Contains(href, RedirectKey) ==> link == href
    ensures Contains(href, RedirectKey) ==> |link| < |href|
  {
    if Contains(href, RedirectKey) then ParamValue(href, RedirectKey) else href
  }

  /** `link.startswith('http')`, and neither `google.com` nor `google.co.kr` in it. */
  predicate Acceptable(link: string) {
    "http" <= link && !Contains(link, "google.com") && !Contains(link, "google.co.kr")
  }

  /**
   * The title rule: the Selenium pass strips the element text and refuses
   * it when empty or shorter than 5; the BeautifulSoup pass takes the text
   * as extracted and refuses it unless longer than 5.
   */
  function TitleOf(pass: Pass, c: Candidate): string {
    if pass.Selenium? then Strip(c.title) else c.title
  }

  predicate TitleOk(pass: Pass, title: string) {
    if pass.Selenium? then |title| >= 5 else |title| > 5
  }

  /** Whether the pass looks up the link it adds, rather than the raw `href`. */
  predicate ChecksUnwrapped(pass: Pass) {
    pass != Selenium(RawHref)
  }

  /** The string the pass looks up in `seen_links`. */
  function SeenKeyOf(pass: Pass, c: Candidate): string {
    if ChecksUnwrapped(pass) then Unwrap(c.href) else c.href
  }

  /**
   * One element: the article it yields, if any. An empty `href` (no link
   * found) unwraps to the empty link, which does not start with `http`.
   */
  function Step(pass: Pass, seen: set<string>, c: Candidate): Option<Link> {
    var title := TitleOf(pass, c);
    var link := Unwrap(c.href);
    if TitleOk(pass, title) && Acceptable(link) && SeenKeyOf(pass, c) !in seen then Some(Link(title, link)) else None
  }

  /**
   * On an element whose `href` is no redirect, the raw `href` is the link,
   * so both Selenium lookups accept the same article.
   */
  lemma StepDirect(seen: set<string>, c: Candidate)
    requires !Contains(c.href, RedirectKey)
    ensures Step(Selenium(RawHref), seen, c) == Step(Selenium(Unwrapped), seen, c)
  {
    assert Unwrap(c.href) == c.href;
  }

  /** The links of `found`. */
  function LinkSet(found: seq<Link>): set<string> {
    set k | 0 <= k < |found| :: found[k].link
  }

  predicate DistinctLinks(found: seq<Link>) {
    forall i, j :: 0 <= i < j < |found| ==> found[i].link != found[j].link
  }

  predicate FreshFor(found: seq<Link>, seen: set<string>) {
    forall k :: 0 <= k < |found| ==> Acceptable(found[k].link) && found[k].link !in seen
  }

  predicate AllAcceptable(found: seq<Link>) {
    forall k :: 0 <= k < |found| ==> Acceptable(found[k].link)
  }

  /** The articles one selector's elements yield, `seen_links` growing by each accepted link. */
  function Scan(pass: Pass, seen: set<string>, elems: seq<Candidate>): (found: seq<Link>)
    ensures |found| <= |elems|
    decreases |elems|
  {
    if elems == [] then []
    else match Step(pass, seen, elems[0])
      case None => Scan(pass, seen, elems[1..])
      case Some(l) => [l] + Scan(pass, seen + {l.link}, elems[1..])
  }

  /**
   * Every link a selector yields is acceptable. When the pass looks up the
   * link it adds, none was seen before and none is returned twice.
   */
  lemma {:induction false} ScanFresh(pass: Pass, seen: set<string>, elems: seq<Candidate>)
    ensures AllAcceptable(Scan(pass, seen, elems))
    ensures ChecksUnwrapped(pass) ==> FreshFor(Scan(pass, seen, elems), seen) && DistinctLinks(Scan(pass, seen, elems))
    decreases |elems|
  {
    if elems != [] {
      match Step(pass, seen, elems[0])
      case None =>
        ScanFresh(pass, seen, elems[1..]);
      case Some(l) =>
        ScanFresh(pass, seen + {l.link}, elems[1..]);
        ConsFresh(l, Scan(pass, seen + {l.link}, elems[1..]), seen, ChecksUnwrapped(pass));
    }
  }

  /** An accepted link in front of the rest of a scan keeps the scan's properties. */
  lemma ConsFresh(l: Link, rest: seq<Link>, seen: set<string>, checked: bool)
    requires Acceptable(l.link) && AllAcceptable(rest)
    requires checked ==> l.link !in seen && FreshFor(rest, seen + {l.link}) && DistinctLinks(rest)
    ensures AllAcceptable([l] + rest)
    ensures checked ==> FreshFor([l] + rest, seen) && DistinctLinks([l] + rest)
  {
    var found := [l] + rest;
    forall k | 0 <= k < |found|
      ensures Acceptable(found[k].link)
      ensures checked ==> found[k].link !in seen
    {
      if k > 0 {
        assert found[k] == rest[k - 1];
      }
    }
    if checked {
      forall i, j | 0 <= i < j < |found|
        ensures found[i].link != found[j].link
      {
        assert found[j] == rest[j - 1];
        if i > 0 {
          assert found[i] == rest[i - 1];
        }
      }
    }
  }

  /** The selectors in order: the first whose elements yield an article gives the articles. */
  function FirstYield(pass: Pass, seen: set<string>, groups: seq<seq<Candidate>>): seq<Link>
    decreases |groups|
  {
    if groups == [] then []
    else
      var f := Scan(pass, seen, groups[0]);
      if f != [] then f else FirstYield(pass, seen, groups[1..])
  }

  /** Whichever selector gives the articles, they keep what `ScanFresh` states. */
  lemma {:induction false} FirstYieldFresh(pass: Pass, seen: set<string>, groups: seq<seq<Candidate>>)
    ensures AllAcceptable(FirstYield(pass, seen, groups))
    ensures ChecksUnwrapped(pass) ==> FreshFor(FirstYield(pass, seen, groups), seen) && DistinctLinks(FirstYield(pass, seen, groups))
    decreases |groups|
  {
    if groups != [] {
      ScanFresh(pass, seen, groups[0]);
      FirstYieldFresh(pass, seen, groups[1..]);
    }
  }

  /**
   * `extract_articles_from_page`: the Selenium selectors, then, only when
   * they yield nothing, the BeautifulSoup ones. The crawlers run it with
   * `key` = `RawHref`.
   */
  function PageLinks(key: SeenKey, seen: set<string>, selenium: seq<seq<Candidate>>, soup: seq<seq<Candidate>>): seq<Link> {
    var s := FirstYield(Selenium(key), seen, selenium);
    if s != [] then s else FirstYield(Soup, seen, soup)
  }

  /** Every link of a page starts with `http` and points away from Google, whatever the lookup. */
  lemma PageLinksAcceptable(key: SeenKey, seen: set<string>, selenium: seq<seq<Candidate>>, soup: seq<seq<Candidate>>)
    ensures AllAcceptable(PageLinks(key, seen, selenium, soup))
  {
    FirstYieldFresh(Selenium(key), seen, selenium);
    FirstYieldFresh(Soup, seen, soup);
  }

  /** With the unwrapped link looked up, a page's links were not seen before and none comes twice. */
  lemma PageLinksFresh(seen: set<string>, selenium: seq<seq<Candidate>>, soup: seq<seq<Candidate>>)
    ensures FreshFor(PageLinks(Unwrapped, seen, selenium, soup), seen)
    ensures DistinctLinks(PageLinks(Unwrapped, seen, selenium, soup))
  {
    FirstYieldFresh(Selenium(Unwrapped), seen, selenium);
    FirstYieldFresh(Soup, seen, soup);
  }

  /** No element of the selectors' results carries a Google redirect. */
  predicate Direct(groups: seq<seq<Candidate>>) {
    forall g, i :: 0 <= g < |groups| && 0 <= i < |groups[g]| ==> !Contains(groups[g][i].href, RedirectKey)
  }

  /** On elements without a redirect, the raw `href` is the link, so both lookups agree. */
  lemma {:induction false} ScanDirect(seen: set<string>, elems: seq<Candidate>)
    requires forall i :: 0 <= i < |elems| ==> !Contains(elems[i].href, RedirectKey)
    ensures Scan(Selenium(RawHref), seen, elems) == Scan(Selenium(Unwrapped), seen, elems)
    decreases |elems|
  {
    if elems != [] {
      StepDirect(seen, elems[0]);
      match Step(Selenium(RawHref), seen, elems[0])
      case None => ScanDirect(seen, elems[1..]);
      case Some(l) => ScanDirect(seen + {l.link}, elems[1..]);
    }
  }

  lemma {:induction false} FirstYieldDirect(seen: set<string>, groups: seq<seq<Candidate>>)
    requires Direct(groups)
    ensures FirstYield(Selenium(RawHref), seen, groups) == FirstYield(Selenium(Unwrapped), seen, groups)
    decreases |groups|
  {
    if groups != [] {
      ScanDirect(seen, groups[0]);
      assert Direct(groups[1..]) by {
        forall g, i | 0 <= g < |groups[1..]| && 0 <= i < |groups[1..][g]|
          ensures !Contains(groups[1..][g][i].href, RedirectKey)
        {
          assert groups[1..][g] == groups[g + 1];
        }
      }
      FirstYieldDirect(seen, groups[1..]);
    }
  }

  /**
   * A page whose Selenium elements carry no redirect yields, as written,
   * what the unwrapped lookup yields: fresh links, none twice.
   */
  lemma PageLinksDirect(seen: set<string>, selenium: seq<seq<Candidate>>, soup: seq<seq<Candidate>>)
    requires Direct(selenium)
    ensures PageLinks(RawHref, seen, selenium, soup) == PageLinks(Unwrapped, seen, selenium, soup)
    ensures FreshFor(PageLinks(RawHref, seen, selenium, soup), seen)
    ensures DistinctLinks(PageLinks(RawHref, seen, selenium, soup))
  {
    FirstYieldDirect(seen, selenium);
    PageLinksFresh(seen, selenium, soup);
  }

  lemma LinkSetSnoc(found: seq<Link>, l: Link)
    ensures LinkSet(found + [l]) == LinkSet(found) + {l.link}
  {
    var s := found + [l];
    assert s[|found|] == l;
    forall u | u in LinkSet(found)
      ensures u in LinkSet(s)
    {
      var k :| 0 <= k < |found| && found[k].link == u;
      assert s[k] == found[k];
    }
  }

  /** One more element scanned: what the rest of the scan becomes. */
  lemma ScanOne(pass: Pass, seen: set<string>, elems: seq<Candidate>, i: nat, found: seq<Link>)
    requires i < |elems|
    ensures Step(pass, seen, elems[i]).None? ==>
      found + Scan(pass, seen, elems[i..]) == found + Scan(pass, seen, elems[i + 1..])
    ensures Step(pass, seen, elems[i]).Some? ==>
      var l := Step(pass, seen, elems[i]).value;
      found + Scan(pass, seen, elems[i..]) == (found + [l]) + Scan(pass, seen + {l.link}, elems[i + 1..])
  {
    assert elems[i..][1..] == elems[i + 1..];
    if Step(pass, seen, elems[i]).Some? {
      var l := Step(pass, seen, elems[i]).value;
      var rest := Scan(pass, seen + {l.link}, elems[i + 1..]);
      assert found + ([l] + rest) == (found + [l]) + rest;
    }
  }

  /** One iteration of the element loop keeps both of its invariants. */
  lemma ScanStep(pass: Pass, seen0: set<string>, elems: seq<Candidate>, i: nat, found: seq<Link>, seen: set<string>)
    requires i < |elems|
    requires found + Scan(pass, seen, elems[i..]) == Scan(pass, seen0, elems)
    requires seen == seen0 + LinkSet(found)
    ensures var r := Step(pass, seen, elems[i]);
      var found' := if r.Some? then found + [r.value] else found;
      var seen' := if r.Some? then seen + {r.value.link} else seen;
      found' + Scan(pass, seen', elems[i + 1..]) == Scan(pass, seen0, elems) && seen' == seen0 + LinkSet(found')
  {
    ScanOne(pass, seen, elems, i, found);
    var r := Step(pass, seen, elems[i]);
    if r.Some? {
      LinkSetSnoc(found, r.value);
    }
  }

  /** The loop over one selector's elements: `seen` is `seen_links`, updated in place. */
  method ScanElements(pass: Pass, seen0: set<string>, elems: seq<Candidate>) returns (found: seq<Link>, seen: set<string>)
    ensures found == Scan(pass, seen0, elems)
    ensures seen == seen0 + LinkSet(found)
  {
    found, seen := [], seen0;
    for i := 0 to |elems|
      invariant found + Scan(pass, seen, elems[i..]) == Scan(pass, seen0, elems)
      invariant seen == seen0 + LinkSet(found)
    {
      ScanStep(pass, seen0, elems, i, found, seen);
      var r := Step(pass, seen, elems[i]);
      if r.Some? {
        found := found + [r.value];
        seen := seen + {r.value.link};
      }
    }
    assert elems[|elems|..] == [];
  }

  /** The loop over the selectors, stopping at the first that yields an article. */
  method TrySelectors(pass: Pass, seen0: set<string>, groups: seq<seq<Candidate>>) returns (found: seq<Link>, seen: set<string>)
    ensures found == FirstYield(pass, seen0, groups)
    ensures seen == seen0 + LinkSet(found)
  {
    found, seen := [], seen0;
    var g := 0;
    while g < |groups|
      invariant g <= |groups|
      invariant FirstYield(pass, seen0, groups[g..]) == FirstYield(pass, seen0, groups)
      decreases |groups| - g
    {
      assert groups[g..][1..] == groups[g + 1..];
      found, seen := ScanElements(pass, seen0, groups[g]);
      if found != [] {
        return;
      }
      g := g + 1;
    }
    found, seen := [], seen0;
    assert LinkSet([]) == {};
  }

  /** `extract_articles_from_page(driver, seen_links)`. */
  method ExtractArticlesFromPage(seen0: set<string>, selenium: seq<seq<Candidate>>, soup: seq<seq<Candidate>>)
    returns (articles: seq<Link>, seen: set<string>)
    ensures articles == PageLinks(RawHref, seen0, selenium, soup)
    ensures seen == seen0 + LinkSet(articles)
  {
    articles, seen := TrySelectors(Selenium(RawHref), seen0, selenium);
    if articles == [] {
      articles, seen := TrySelectors(Soup, seen0, soup);
    }
  }

  /**
   * As written, a page that shows the same redirect link twice (a headline
   * and its snippet, say) yields the same article twice: the raw `href` is
   * never what `seen_links` holds.
   */
  lemma SeleniumAsWrittenDuplicates(c: Candidate, seen: set<string>)
    requires |Strip(c.title)| >= 5 && Contains(c.href, RedirectKey) && c.href !in seen
    requires Acceptable(Unwrap(c.href))
    ensures var found := Scan(Selenium(RawHref), seen, [c, c]);
      |found| == 2 && found[0] == found[1] && !DistinctLinks(found)
  {
    var l := Link(Strip(c.title), Unwrap(c.href));
    assert Step(Selenium(RawHref), seen, c) == Some(l);
    assert c.href != l.link;
    assert Step(Selenium(RawHref), seen + {l.link}, c) == Some(l);
    assert [c, c][1..] == [c];
    assert Scan(Selenium(RawHref), seen + {l.link}, [c]) == [l] by {
      assert [c][1..] == [];
    }
  }

  /** With the unwrapped link looked up, as the BeautifulSoup pass does, the same page yields the article once. */
  lemma SeleniumRepeatedOnce(c: Candidate, seen: set<string>)
    requires Step(Selenium(Unwrapped), seen, c).Some?
    ensures Scan(Selenium(Unwrapped), seen, [c, c]) == [Step(Selenium(Unwrapped), seen, c).value]
  {
    var l := Step(Selenium(Unwrapped), seen, c).value;
    assert [c, c][1..] == [c];
    assert Step(Selenium(Unwrapped), seen + {l.link}, c).None?;
    assert [c][1..] == [];
  }
}
