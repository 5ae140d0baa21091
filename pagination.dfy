/**
 * The crawlers' pagination loop (`extract_articles_with_pagination` in the
 * date-range crawler, `extract_recent_articles` in the async one): read a
 * result page, move to the next one by its `start=` parameter, stop after
 * `MAX_PAGES` pages or once enough articles are collected.
 *
 * The browser is an oracle: `pages[p]` is what the driver shows after the
 * `p`-th navigation, its result elements and its `current_url`.
 */
module Pagination {
  import opened Wrappers
  import opened PyStr
  import opened CrawlerLinks
  import opened GoogleDate

  /** `MAX_PAGES`. */
  const MaxPages := 2
  /** `MAX_ARTICLES_PER_QUERY`. */
  const MaxArticlesPerQuery := 20

  const StartKey := "start="

  /** One result page as the driver shows it. */
  datatype Page = Page(selenium: seq<seq<Candidate>>, soup: seq<seq<Candidate>>, url: string)

  /**
   * The `start=` of the page after the one at `url`: the current value plus
   * 10, or 10 when the URL has none; `None` where `int()` raises.
   */
  function NextStart(url: string): (r: Option<int>)
    ensures !Contains(url, StartKey) ==> r == Some(10)
  {
    if Contains(url, StartKey) then
      match ParseInt(ParamValue(url, StartKey))
      case None => None
      case Some(start) => Some(start + 10)
    else Some(10)
  }

  /** No occurrence of `start=` begins inside `p` when `p` is followed by `start=` itself. */
  lemma StartKeyFirstAt(p: string, tail: string)
    requires !Contains(p, StartKey)
    ensures Find(p + StartKey + tail, StartKey) == Some(|p|)
  {
    var s := p + StartKey + tail;
    assert OccursAt(s, StartKey, |p|) by {
      assert s[|p|..|p| + 6] == StartKey;
    }
    forall j: nat | j < |p|
      ensures !OccursAt(s, StartKey, j)
    {
      if j + 6 <= |p| {
        assert s[j..j + 6] == p[j..j + 6];
        if OccursAt(p, StartKey, j) {
          ContainsAt(p, StartKey, j);
        }
      } else {
        assert s[j..j + 6][|p| - j] == s[|p|] == 's';
        assert StartKey[|p| - j] != 's';
      }
    }
  }

  /** A text that starts with something other than a digit occurs nowhere in a run of digits. */
  lemma NotInDigits(digits: string, sub: string)
    requires AllDigits(digits) && sub != [] && !IsDigit(sub[0])
    ensures Find(digits, sub) == None
  {
    forall j: nat
      ensures !OccursAt(digits, sub, j)
    {
      if j + |sub| <= |digits| {
        assert digits[j..j + |sub|][0] == digits[j];
      }
    }
  }

  /**
   * The `start=` value the crawler writes as the last parameter of the next
   * page's URL is read back from it: from that page the crawler moves on by
   * another 10 results.
   */
  lemma {:induction false} NextStartReadsBack(p: string, n: nat)
    requires !Contains(p, StartKey)
    ensures NextStart(p + StartKey + NatStr(n)) == Some(n + 10)
  {
    var s := p + StartKey + NatStr(n);
    StartKeyFirstAt(p, NatStr(n));
    ContainsAt(s, StartKey, |p|);
    assert s[|p| + |StartKey|..] == NatStr(n);
    var digits := NatStr(n);
    NotInDigits(digits, StartKey);
    NotInDigits(digits, "&");
    assert ParamValue(s, StartKey) == digits;
    ParseDigits(digits);
  }

  /** `if start_date and end_date`: both dates given and both convertible, or no date range at all. */
  predicate DatesUsable(startDate: string, endDate: string) {
    startDate == [] || endDate == []
    || (FormatDateForGoogle(startDate).Some? && FormatDateForGoogle(endDate).Some?)
  }

  /**
   * Whether the loop goes on to the second page after reading `first` from
   * the first one: fewer articles than wanted so far, a readable `start=`,
   * usable dates, and a browser that actually moved.
   */
  predicate Continues(pages: seq<Page>, first: seq<Link>, maxArticles: nat, datesOk: bool)
    requires |pages| == MaxPages
  {
    && |first| < maxArticles
    && NextStart(pages[0].url).Some?
    && datesOk
    && pages[1].url != pages[0].url
  }

  /**
   * `extract_articles_from_page(driver, seen_links)` as the loop sees it:
   * from the links seen so far and the page the driver shows, the page's
   * articles. `seen_links` then grows by exactly those links, as
   * `ExtractArticlesFromPage` proves of the crawlers' reader `ReadAs(RawHref)`.
   */
  type Reader = (set<string>, Page) -> seq<Link>

  /** The page reader with the given Selenium lookup. */
  function ReadAs(key: SeenKey): Reader {
    (seen, p: Page) => PageLinks(key, seen, p.selenium, p.soup)
  }

  /**
   * What the pages yield before the cut to `maxArticles`: the first page's
   * articles, followed by the second page's when the loop gets there (with
   * `MAX_PAGES` = 2, those are all the pages it can read).
   */
  function Collected(reader: Reader, pages: seq<Page>, maxArticles: nat, datesOk: bool): seq<Link>
    requires |pages| == MaxPages
  {
    var first := reader({}, pages[0]);
    if Continues(pages, first, maxArticles, datesOk) then first + reader(LinkSet(first), pages[1]) else first
  }

  /** Every collected link starts with `http` and points away from Google, whatever the lookup. */
  lemma CollectedAcceptable(key: SeenKey, pages: seq<Page>, maxArticles: nat, datesOk: bool)
    requires |pages| == MaxPages
    ensures AllAcceptable(Collected(ReadAs(key), pages, maxArticles, datesOk))
  {
    var first := PageLinks(key, {}, pages[0].selenium, pages[0].soup);
    PageLinksAcceptable(key, {}, pages[0].selenium, pages[0].soup);
    if Continues(pages, first, maxArticles, datesOk) {
      var second := PageLinks(key, LinkSet(first), pages[1].selenium, pages[1].soup);
      PageLinksAcceptable(key, LinkSet(first), pages[1].selenium, pages[1].soup);
      forall k | 0 <= k < |first + second|
        ensures Acceptable((first + second)[k].link)
      {
        if k >= |first| {
          assert (first + second)[k] == second[k - |first|];
        }
      }
    }
  }

  /** With the unwrapped link looked up, no link is collected twice. */
  lemma CollectedFresh(pages: seq<Page>, maxArticles: nat, datesOk: bool)
    requires |pages| == MaxPages
    ensures FreshFor(Collected(ReadAs(Unwrapped), pages, maxArticles, datesOk), {})
    ensures DistinctLinks(Collected(ReadAs(Unwrapped), pages, maxArticles, datesOk))
  {
    var first := PageLinks(Unwrapped, {}, pages[0].selenium, pages[0].soup);
    PageLinksFresh({}, pages[0].selenium, pages[0].soup);
    if Continues(pages, first, maxArticles, datesOk) {
      PageLinksFresh(LinkSet(first), pages[1].selenium, pages[1].soup);
      Extend(first, PageLinks(Unwrapped, LinkSet(first), pages[1].selenium, pages[1].soup), LinkSet(first));
    }
  }

  /** No Selenium element on either page carries a Google redirect. */
  predicate DirectPages(pages: seq<Page>)
    requires |pages| == MaxPages
  {
    Direct(pages[0].selenium) && Direct(pages[1].selenium)
  }

  /** On pages without redirects the crawlers' raw-`href` lookup collects what the unwrapped one does. */
  lemma CollectedDirect(pages: seq<Page>, maxArticles: nat, datesOk: bool)
    requires |pages| == MaxPages && DirectPages(pages)
    ensures Collected(ReadAs(RawHref), pages, maxArticles, datesOk) == Collected(ReadAs(Unwrapped), pages, maxArticles, datesOk)
  {
    PageLinksDirect({}, pages[0].selenium, pages[0].soup);
    var first := PageLinks(RawHref, {}, pages[0].selenium, pages[0].soup);
    PageLinksDirect(LinkSet(first), pages[1].selenium, pages[1].soup);
  }

  /**
   * The `try` block of one pass: read `start=` from the current URL, build
   * the next URL (the dates must convert), load it, and see whether the
   * browser moved. Any failure, or a browser that stayed, ends the loop.
   */
  method MovesOn(pages: seq<Page>, page: nat, datesOk: bool) returns (moved: bool)
    requires 1 <= page < |pages|
    ensures moved <==> NextStart(pages[page - 1].url).Some? && datesOk && pages[page].url != pages[page - 1].url
  {
    var current := pages[page - 1].url;
    var next := NextStart(current);
    if next.None? || !datesOk {
      return false;
    }
    moved := pages[page].url != current;
  }

  /**
   * The `while` loop of the pagination: read pages until `MAX_PAGES` are
   * read, enough articles are collected, or there is no next page to go to.
   * The loop only stops before reading anything when no article is wanted.
   * `datesOk` is the verdict of `DatesUsable` on the crawler's two dates:
   * the conversion is pure, so the verdict is the same on every pass.
   */
  method CollectPages(pages: seq<Page>, maxArticles: nat, datesOk: bool, reader: Reader)
    returns (all: seq<Link>, read: nat)
    requires |pages| == MaxPages
    ensures all == Collected(reader, pages, maxArticles, datesOk) || (maxArticles == 0 && all == [])
    ensures read <= MaxPages
  {
    all := [];
    var seen: set<string> := {};
    var page := 1;
    read := 0;
    ghost var first := reader({}, pages[0]);
    while page <= MaxPages && |all| < maxArticles
      invariant 1 <= page <= MaxPages && read == page - 1
      invariant page == 1 ==> all == [] && seen == {}
      invariant page == 2 ==> all == first && seen == LinkSet(first) && Continues(pages, first, maxArticles, datesOk)
      decreases MaxPages - page
    {
      var found := reader(seen, pages[page - 1]);
      all, seen, read := all + found, seen + LinkSet(found), page;
      if |all| >= maxArticles {
        break;
      }
      if page < MaxPages {
        var moved := MovesOn(pages, page, datesOk);
        if !moved {
          break;
        }
        page := page + 1;
      } else {
        break;
      }
    }
  }

  /**
   * `extract_articles_with_pagination` (the date-range crawler passes its two
   * dates, and a date that `format_date_for_google` refuses ends the loop)
   * and `extract_recent_articles` (no dates): the collected articles cut to
   * `max_articles`, and how many pages were read. Every link is acceptable;
   * on pages without redirect links none is returned twice.
   */
  method ExtractWithPagination(pages: seq<Page>, maxArticles: nat, startDate: string, endDate: string)
    returns (articles: seq<Link>, read: nat)
    requires |pages| == MaxPages
    ensures articles == Cut(Collected(ReadAs(RawHref), pages, maxArticles, DatesUsable(startDate, endDate)), maxArticles)
    ensures |articles| <= maxArticles && read <= MaxPages
    ensures AllAcceptable(articles)
    ensures DirectPages(pages) ==> FreshFor(articles, {}) && DistinctLinks(articles)
  {
    var datesOk := DatesUsable(startDate, endDate);
    var all;
    all, read := CollectPages(pages, maxArticles, datesOk, ReadAs(RawHref));
    CollectedAcceptable(RawHref, pages, maxArticles, datesOk);
    CutAcceptable(all, maxArticles);
    if DirectPages(pages) {
      CollectedDirect(pages, maxArticles, datesOk);
      CollectedFresh(pages, maxArticles, datesOk);
      PrefixKeeps(all, maxArticles);
    }
    articles := Cut(all, maxArticles);
  }

  /** `all_articles[:max_articles]`. */
  function Cut(all: seq<Link>, n: nat): seq<Link> {
    if n < |all| then all[..n] else all
  }

  /** Cutting keeps every link acceptable. */
  lemma CutAcceptable(all: seq<Link>, n: nat)
    requires AllAcceptable(all)
    ensures AllAcceptable(Cut(all, n))
  {
  }

  /** Cutting a duplicate-free list of fresh links keeps it so. */
  lemma PrefixKeeps(all: seq<Link>, n: nat)
    requires FreshFor(all, {}) && DistinctLinks(all)
    ensures FreshFor(Cut(all, n), {}) && DistinctLinks(Cut(all, n))
  {
  }

  /** Appending a page's fresh articles keeps the collection duplicate-free. */
  lemma Extend(all: seq<Link>, found: seq<Link>, seen: set<string>)
    requires FreshFor(all, {}) && DistinctLinks(all) && seen == LinkSet(all)
    requires FreshFor(found, seen) && DistinctLinks(found)
    ensures FreshFor(all + found, {}) && DistinctLinks(all + found)
    ensures seen + LinkSet(found) == LinkSet(all + found)
  {
    var s := all + found;
    forall i, j | 0 <= i < j < |s|
      ensures s[i].link != s[j].link
    {
      if i < |all| && j >= |all| {
        assert s[i].link in LinkSet(all);
        assert s[j] == found[j - |all|];
      } else if i >= |all| {
        assert s[i] == found[i - |all|] && s[j] == found[j - |all|];
      }
    }
    forall u | u in LinkSet(s)
      ensures u in seen + LinkSet(found)
    {
      var k :| 0 <= k < |s| && s[k].link == u;
      if k >= |all| {
        assert s[k] == found[k - |all|];
      }
    }
    forall u | u in seen + LinkSet(found)
      ensures u in LinkSet(s)
    {
      if u in LinkSet(found) {
        var k :| 0 <= k < |found| && found[k].link == u;
        assert s[|all| + k] == found[k];
      } else {
        var k :| 0 <= k < |all| && all[k].link == u;
        assert s[k] == all[k];
      }
    }
  }
}
