/**
 * The crawlers' bookkeeping around the Google News search: the search
 * queries, the URLs already in the crawl sheet, the choice of articles
 * whose body is fetched, and the loop that appends one row per new article
 * to the crawl sheet (`경쟁사, 경쟁사+키워드, 제목, 본문, URL`).
 */
module CrawlerSheet {
  import opened Wrappers
  import opened PyStr
  import opened CrawlerLinks

  /** A worksheet as `get_all_values` returns it: rows of cells, the header row first. */
  type Sheet = seq<seq<string>>

  /** `COMPETITORS` of the date-range crawler. */
  const CompetitorsDateRange: seq<string> := [
    "글루코핏", "파스타", "글루어트", "닥터다이어리", "눔", "다노", "필라이즈",
    "레벨스", "시그노스", "뉴트리센스", "버타", "홈핏", "달램", "파크로쉬리조트",
    "더스테이힐링파크", "청리움", "오색그린야드호텔", "깊은산속옹달샘", "GC케어",
    "뷰핏", "레드밸런스", "SNPE", "헬스맥스"
  ]

  /** `COMPETITORS` of the async crawler: the same list and one more. */
  const CompetitorsAsync: seq<string> := CompetitorsDateRange + ["애니핏플러스"]

  /** `KEYWORDS`. */
  const Keywords: seq<string> := ["도입", "협약", "협업", "제휴"]

  /** The longest title or body the crawl sheet receives. */
  const MaxCellLength := 50000

  /** `[f"{c} {k}" for k in ks]`. */
  function QueriesFor(c: string, ks: seq<string>): (qs: seq<string>)
    ensures |qs| == |ks| && forall j :: 0 <= j < |ks| ==> qs[j] == c + " " + ks[j]
  {
    seq(|ks|, j requires 0 <= j < |ks| => c + " " + ks[j])
  }

  /** `[f"{c} {k}" for c in cs for k in ks]`: competitor-major order. */
  function Queries(cs: seq<string>, ks: seq<string>): seq<string>
    decreases |cs|
  {
    if cs == [] then [] else QueriesFor(cs[0], ks) + Queries(cs[1..], ks)
  }

  /** There are `|cs| * |ks|` queries, and the one at `i * |ks| + j` joins competitor `i` and keyword `j`. */
  lemma {:induction false} QueryAt(cs: seq<string>, ks: seq<string>, i: nat, j: nat)
    requires i < |cs| && j < |ks|
    ensures |Queries(cs, ks)| == |cs| * |ks| && i * |ks| + j < |cs| * |ks|
    ensures Queries(cs, ks)[i * |ks| + j] == cs[i] + " " + ks[j]
    decreases i
  {
    QueryCount(cs, ks);
    MulBound(i, j, |cs|, |ks|);
    if i > 0 {
      QueryAt(cs[1..], ks, i - 1, j);
      assert i * |ks| + j == |ks| + ((i - 1) * |ks| + j);
    }
  }

  lemma {:induction false} MulBound(i: nat, j: nat, m: nat, n: nat)
    requires i < m && j < n
    ensures i * n + j < m * n
    decreases m
  {
    if i + 1 < m {
      MulBound(i, j, m - 1, n);
      assert m * n == (m - 1) * n + n;
    } else {
      assert m * n == i * n + n;
    }
  }

  lemma {:induction false} QueryCount(cs: seq<string>, ks: seq<string>)
    ensures |Queries(cs, ks)| == |cs| * |ks|
    decreases |cs|
  {
    if cs != [] {
      QueryCount(cs[1..], ks);
      assert |cs| * |ks| == |ks| + (|cs| - 1) * |ks|;
    }
  }

  /** A competitor name the first-token rule recovers: non-empty and without whitespace. */
  predicate PlainName(c: string) {
    c != [] && forall i :: 0 <= i < |c| ==> !IsSpace(c[i])
  }

  /** `parts = query.split(); competitor = parts[0]` gives back the competitor of every query. */
  lemma QueryCompetitor(cs: seq<string>, ks: seq<string>, i: nat, j: nat)
    requires i < |cs| && j < |ks| && PlainName(cs[i])
    ensures var qs := Queries(cs, ks); i * |ks| + j < |qs| && FirstToken(qs[i * |ks| + j]) == cs[i]
  {
    QueryAt(cs, ks, i, j);
    FirstTokenOfJoined(cs[i], ks[j]);
  }

  /** The date-range crawler runs 23 * 4 = 92 queries, the async one 24 * 4 = 96. */
  lemma CrawlerQueryCounts()
    ensures |Queries(CompetitorsDateRange, Keywords)| == 92
    ensures |Queries(CompetitorsAsync, Keywords)| == 96
  {
    QueryCount(CompetitorsDateRange, Keywords);
    QueryCount(CompetitorsAsync, Keywords);
  }

  /** Every competitor name is recovered from its queries: none is empty or holds whitespace. */
  lemma CompetitorNamesPlain()
    ensures forall i :: 0 <= i < |CompetitorsAsync| ==> PlainName(CompetitorsAsync[i])
  {
  }

  /** What one data row adds to the set: its stripped last cell, when it has a cell at all. */
  function LastCell(row: seq<string>): Option<string> {
    if |row| >= 1 then Some(Strip(row[|row| - 1])) else None
  }

  function LastCells(rows: Sheet): set<string>
    decreases |rows|
  {
    if rows == [] then {}
    else
      var last := LastCell(rows[|rows| - 1]);
      LastCells(rows[..|rows| - 1]) + (if last.Some? then {last.value} else {})
  }

  /**
   * `get_existing_urls`, fed with what reading the sheet gave (`None` when
   * reading raised, which the source swallows).
   */
  function ExistingUrls(read: Option<Sheet>): set<string> {
    if read.Some? && |read.value| > 1 then LastCells(read.value[1..]) else {}
  }

  lemma {:induction false} LastCellsMembers(rows: Sheet, u: string)
    ensures u in LastCells(rows) <==> exists k :: 0 <= k < |rows| && LastCell(rows[k]) == Some(u)
    decreases |rows|
  {
    if rows != [] {
      var init := rows[..|rows| - 1];
      LastCellsMembers(init, u);
      if u in LastCells(init) {
        var k :| 0 <= k < |init| && LastCell(init[k]) == Some(u);
        assert rows[k] == init[k];
      }
      if exists k :: 0 <= k < |rows| && LastCell(rows[k]) == Some(u) {
        var k :| 0 <= k < |rows| && LastCell(rows[k]) == Some(u);
        if k < |init| {
          assert init[k] == rows[k];
        }
      }
    }
  }

  /**
   * The set holds exactly the stripped last cells of the rows after the
   * header; fewer than two rows give the empty set.
   */
  lemma ExistingMembers(data: Sheet, u: string)
    ensures u in ExistingUrls(Some(data)) <==>
      exists k :: 1 <= k < |data| && LastCell(data[k]) == Some(u)
  {
    if |data| > 1 {
      var rows := data[1..];
      LastCellsMembers(rows, u);
      if exists k :: 0 <= k < |rows| && LastCell(rows[k]) == Some(u) {
        var k :| 0 <= k < |rows| && LastCell(rows[k]) == Some(u);
        assert LastCell(data[k + 1]) == Some(u);
      }
      if exists k :: 1 <= k < |data| && LastCell(data[k]) == Some(u) {
        var k :| 1 <= k < |data| && LastCell(data[k]) == Some(u);
        assert rows[k - 1] == data[k];
      }
    }
  }

  lemma LastCellsSnoc(rows: Sheet, i: nat)
    requires i < |rows|
    ensures LastCells(rows[..i + 1]) == LastCells(rows[..i]) + (if LastCell(rows[i]).Some? then {LastCell(rows[i]).value} else {})
  {
    assert rows[..i + 1][..i] == rows[..i];
  }

  /** `get_existing_urls(worksheet)`: the loop that fills `existing_urls`. */
  method GetExistingUrls(read: Option<Sheet>) returns (urls: set<string>)
    ensures urls == ExistingUrls(read)
  {
    urls := {};
    if read.None? || |read.value| <= 1 {
      return;
    }
    var rows := read.value[1..];
    for i := 0 to |rows|
      invariant urls == LastCells(rows[..i])
    {
      LastCellsSnoc(rows, i);
      if |rows[i]| >= 1 {
        urls := urls + {Strip(rows[i][|rows[i]| - 1])};
      }
    }
    assert rows[..|rows|] == rows;
  }

  /** `.replace('\n', ' ').replace('\r', ' ')`. */
  function NoBreaks(s: string): (r: string)
    ensures |r| == |s|
    ensures forall i :: 0 <= i < |s| ==> r[i] == (if s[i] == '\n' || s[i] == '\r' then ' ' else s[i])
  {
    seq(|s|, i requires 0 <= i < |s| => if s[i] == '\n' || s[i] == '\r' then ' ' else s[i])
  }

  /**
   * The body as stored: line breaks become spaces, then the first 50000
   * characters are kept. No line break is left, and every other character
   * is the body's own, in place.
   */
  function CleanContent(content: string): (r: string)
    ensures |r| == if |content| < MaxCellLength then |content| else MaxCellLength
    ensures '\n' !in r && '\r' !in r
    ensures forall i :: 0 <= i < |r| ==> r[i] == content[i] || (r[i] == ' ' && (content[i] == '\n' || content[i] == '\r'))
  {
    Prefix(NoBreaks(content), MaxCellLength)
  }

  /**
   * `crawl_articles_content_async`'s first loop: the articles whose link is
   * not already in the sheet, in their order.
   */
  function NewArticles(articles: seq<Link>, existing: set<string>): (r: seq<Link>)
    ensures |r| <= |articles|
    ensures forall a :: a in r <==> a in articles && a.link !in existing
    decreases |articles|
  {
    if articles == [] then []
    else
      var init := NewArticles(articles[..|articles| - 1], existing);
      var last := articles[|articles| - 1];
      assert articles == articles[..|articles| - 1] + [last];
      if last.link in existing then init else init + [last]
  }

  /** The filter keeps the order of the articles: it works piecewise over a concatenation. */
  lemma {:induction false} NewArticlesConcat(xs: seq<Link>, ys: seq<Link>, existing: set<string>)
    ensures NewArticles(xs + ys, existing) == NewArticles(xs, existing) + NewArticles(ys, existing)
    decreases |ys|
  {
    if ys == [] {
      assert xs + ys == xs;
    } else {
      var init := ys[..|ys| - 1];
      var last := ys[|ys| - 1];
      NewArticlesConcat(xs, init, existing);
      assert (xs + ys)[..|xs + ys| - 1] == xs + init;
      assert (xs + ys)[|xs + ys| - 1] == last;
      var a, b := NewArticles(xs, existing), NewArticles(init, existing);
      assert (a + b) + [last] == a + (b + [last]);
    }
  }

  /** What fetching one body gave: the exception `gather` returned, or the text (empty when extraction failed). */
  datatype Fetched = Raised | Body(text: string)

  /** An article with its body, `{'title': ..., 'link': ..., 'content': ...}`. */
  datatype WithContent = WithContent(title: string, link: string, content: string)

  /**
   * The second loop: articles and fetched bodies paired by position,
   * exceptions and empty bodies dropped.
   */
  function Assemble(articles: seq<Link>, fetched: seq<Fetched>): (rs: seq<WithContent>)
    requires |fetched| == |articles|
    decreases |articles|
  {
    if articles == [] then []
    else
      var n := |articles| - 1;
      var init := Assemble(articles[..n], fetched[..n]);
      if fetched[n].Body? && fetched[n].text != [] then
        init + [WithContent(articles[n].title, articles[n].link, fetched[n].text)]
      else init
  }

  /** Whether article `k` with its fetched body is `w`. */
  predicate PairedAt(articles: seq<Link>, fetched: seq<Fetched>, k: nat, w: WithContent)
    requires |fetched| == |articles| && k < |articles|
  {
    fetched[k].Body? && w == WithContent(articles[k].title, articles[k].link, fetched[k].text)
  }

  /**
   * Every result has a non-empty body and the title and link of the
   * article that body was fetched for; every article whose body came back
   * non-empty has its result.
   */
  lemma {:induction false} AssembleMembers(articles: seq<Link>, fetched: seq<Fetched>, w: WithContent)
    requires |fetched| == |articles|
    ensures w in Assemble(articles, fetched) <==>
      w.content != [] && exists k :: 0 <= k < |articles| && PairedAt(articles, fetched, k, w)
    decreases |articles|
  {
    if articles != [] {
      var n := |articles| - 1;
      var init := Assemble(articles[..n], fetched[..n]);
      AssembleMembers(articles[..n], fetched[..n], w);
      if w in init {
        var k :| 0 <= k < n && PairedAt(articles[..n], fetched[..n], k, w);
        assert PairedAt(articles, fetched, k, w);
      }
      if exists k :: 0 <= k < n && PairedAt(articles, fetched, k, w) {
        var k :| 0 <= k < n && PairedAt(articles, fetched, k, w);
        assert PairedAt(articles[..n], fetched[..n], k, w);
      }
      if fetched[n].Body? && fetched[n].text != [] {
        var last := WithContent(articles[n].title, articles[n].link, fetched[n].text);
        assert Assemble(articles, fetched) == init + [last];
        assert PairedAt(articles, fetched, n, last);
      } else {
        assert Assemble(articles, fetched) == init;
        assert w.content != [] ==> !PairedAt(articles, fetched, n, w);
      }
    }
  }

  lemma NewArticlesSnoc(articles: seq<Link>, i: nat, existing: set<string>)
    requires i < |articles|
    ensures NewArticles(articles[..i + 1], existing)
      == NewArticles(articles[..i], existing) + (if articles[i].link in existing then [] else [articles[i]])
  {
    assert articles[..i + 1][..i] == articles[..i];
  }

  lemma AssembleSnoc(articles: seq<Link>, fetched: seq<Fetched>, i: nat)
    requires |fetched| == |articles| && i < |articles|
    ensures Assemble(articles[..i + 1], fetched[..i + 1])
      == Assemble(articles[..i], fetched[..i])
         + (if fetched[i].Body? && fetched[i].text != []
            then [WithContent(articles[i].title, articles[i].link, fetched[i].text)] else [])
  {
    assert articles[..i + 1][..i] == articles[..i];
    assert fetched[..i + 1][..i] == fetched[..i];
  }

  /** The first loop of `crawl_articles_content_async`. */
  method SelectNewArticles(articles: seq<Link>, existing: set<string>) returns (newArticles: seq<Link>)
    ensures newArticles == NewArticles(articles, existing)
  {
    newArticles := [];
    for i := 0 to |articles|
      invariant newArticles == NewArticles(articles[..i], existing)
    {
      NewArticlesSnoc(articles, i, existing);
      if articles[i].link !in existing {
        newArticles := newArticles + [articles[i]];
      }
    }
    assert articles[..|articles|] == articles;
  }

  /**
   * `crawl_articles_content_async(articles, existing_urls)`: the new
   * articles, their bodies fetched (`fetched[k]` is what the fetch for the
   * `k`-th new article gave), and the results assembled.
   */
  method CrawlArticlesContent(articles: seq<Link>, existing: set<string>, fetched: seq<Fetched>)
    returns (results: seq<WithContent>)
    requires |fetched| == |NewArticles(articles, existing)|
    ensures results == Assemble(NewArticles(articles, existing), fetched)
  {
    var newArticles := SelectNewArticles(articles, existing);
    results := [];
    if newArticles == [] {
      return;
    }
    for i := 0 to |newArticles|
      invariant results == Assemble(newArticles[..i], fetched[..i])
    {
      AssembleSnoc(newArticles, fetched, i);
      if fetched[i].Body? && fetched[i].text != [] {
        results := results + [WithContent(newArticles[i].title, newArticles[i].link, fetched[i].text)];
      }
    }
    assert newArticles[..|newArticles|] == newArticles && fetched[..|fetched|] == fetched;
  }

  /** A row of the crawl sheet. */
  datatype SheetRow = SheetRow(competitor: string, query: string, title: string, content: string, url: string)

  /** The row saved for `w` under `query`. */
  function RowFor(query: string, w: WithContent): (row: SheetRow)
    ensures row.url == w.link && row.query == query && row.competitor == FirstToken(query)
    ensures |row.title| <= MaxCellLength && row.title <= w.title
    ensures |row.content| <= MaxCellLength && '\n' !in row.content && '\r' !in row.content
  {
    SheetRow(FirstToken(query), query, Prefix(w.title, MaxCellLength), CleanContent(w.content), w.link)
  }

  /** The cells `append_row` receives, in sheet order: the URL last. */
  function Cells(row: SheetRow): seq<string> {
    [row.competitor, row.query, row.title, row.content, row.url]
  }

  predicate DistinctUrls(rows: seq<SheetRow>) {
    forall i, j :: 0 <= i < j < |rows| ==> rows[i].url != rows[j].url
  }

  /**
   * What the save loop appends for one item: nothing when its link is
   * already in `existing`; otherwise its row, when `append_row` succeeds.
   */
  function SaveStep(existing: set<string>, query: string, w: WithContent, appended: bool): seq<SheetRow> {
    if w.link !in existing && appended then [RowFor(query, w)] else []
  }

  /**
   * The rows the save loop appends for `items`, given which `append_row`
   * calls succeed (`appended`); each link joins `existing` before its row
   * is attempted. No row's URL was in `existing`, and no URL is saved twice.
   */
  function SavedRows(existing: set<string>, query: string, items: seq<WithContent>, appended: seq<bool>): (rows: seq<SheetRow>)
    requires |appended| == |items|
    ensures forall k :: 0 <= k < |rows| ==> rows[k].url !in existing
    ensures DistinctUrls(rows)
    decreases |items|
  {
    if items == [] then []
    else
      var rest := SavedRows(existing + {items[0].link}, query, items[1..], appended[1..]);
      SaveStep(existing, query, items[0], appended[0]) + rest
  }

  function LinksOf(items: seq<WithContent>): set<string> {
    set k | 0 <= k < |items| :: items[k].link
  }

  function RowUrls(rows: seq<SheetRow>): set<string> {
    set k | 0 <= k < |rows| :: rows[k].url
  }

  /** Item `k` is the first of `items` with its link, and its `append_row` succeeded. */
  predicate FirstSaved(items: seq<WithContent>, appended: seq<bool>, k: int)
    requires |appended| == |items|
  {
    0 <= k < |items| && appended[k] && forall j :: 0 <= j < k ==> items[j].link != items[k].link
  }

  /**
   * A URL is saved exactly when it was not in `existing_urls` and the first
   * item carrying it had its `append_row` succeed: a later copy of the link
   * is skipped even when the first save failed.
   */
  lemma {:induction false} SavedRowsMembers(existing: set<string>, query: string, items: seq<WithContent>, appended: seq<bool>, u: string)
    requires |appended| == |items|
    ensures u in RowUrls(SavedRows(existing, query, items, appended)) <==>
      u !in existing && exists k :: FirstSaved(items, appended, k) && items[k].link == u
    decreases |items|
  {
    if items != [] {
      var w := items[0];
      var step := SaveStep(existing, query, w, appended[0]);
      var rest := SavedRows(existing + {w.link}, query, items[1..], appended[1..]);
      assert SavedRows(existing, query, items, appended) == step + rest;
      RowUrlsConcat(step, rest);
      assert RowUrls(step) == if w.link !in existing && appended[0] then {w.link} else {} by {
        if step != [] {
          assert step[0].url == w.link;
        }
      }
      SavedRowsMembers(existing + {w.link}, query, items[1..], appended[1..], u);
      FirstSavedShift(items, appended, u);
    }
  }

  lemma RowUrlsConcat(a: seq<SheetRow>, b: seq<SheetRow>)
    ensures RowUrls(a + b) == RowUrls(a) + RowUrls(b)
  {
    var s := a + b;
    forall u | u in RowUrls(a) + RowUrls(b)
      ensures u in RowUrls(s)
    {
      if u in RowUrls(a) {
        var k :| 0 <= k < |a| && a[k].url == u;
        assert s[k] == a[k];
      } else {
        var k :| 0 <= k < |b| && b[k].url == u;
        assert s[|a| + k] == b[k];
      }
    }
    forall u | u in RowUrls(s)
      ensures u in RowUrls(a) + RowUrls(b)
    {
      var k :| 0 <= k < |s| && s[k].url == u;
      if k >= |a| {
        assert s[k] == b[k - |a|];
      }
    }
  }

  /** The first saved item for `u` is the head, or the first saved item for `u` in the tail. */
  lemma FirstSavedShift(items: seq<WithContent>, appended: seq<bool>, u: string)
    requires |appended| == |items| && items != []
    ensures (exists k :: FirstSaved(items, appended, k) && items[k].link == u) <==>
      if items[0].link == u then appended[0]
      else exists k :: FirstSaved(items[1..], appended[1..], k) && items[1..][k].link == u
  {
    if exists k :: FirstSaved(items, appended, k) && items[k].link == u {
      var k :| FirstSaved(items, appended, k) && items[k].link == u;
      if items[0].link != u {
        assert k > 0;
        assert FirstSaved(items[1..], appended[1..], k - 1);
      } else {
        assert k == 0;
      }
    }
    if items[0].link == u && appended[0] {
      assert FirstSaved(items, appended, 0);
    }
    if items[0].link != u && exists k :: FirstSaved(items[1..], appended[1..], k) && items[1..][k].link == u {
      var k :| FirstSaved(items[1..], appended[1..], k) && items[1..][k].link == u;
      assert FirstSaved(items, appended, k + 1);
    }
  }

  /**
   * One crawl run's save loop (`crawl_news_by_date_range` and
   * `crawl_recent_news_async`): `existing` is `existing_urls`, `rows` the
   * rows appended so far this run.
   */
  class CrawlRun {
    var existing: set<string>
    var rows: seq<SheetRow>

    /** Every saved URL is in `existing_urls`, and none is saved twice. */
    ghost predicate Valid()
      reads this
    {
      && (forall k :: 0 <= k < |rows| ==> rows[k].url in existing)
      && DistinctUrls(rows)
    }

    constructor (existing0: set<string>)
      ensures Valid() && existing == existing0 && rows == []
    {
      existing := existing0;
      rows := [];
    }

    /**
     * The loop over one query's articles: skip a URL already in
     * `existing_urls`, add it before saving, append the row (which may fail).
     */
    method SaveArticles(query: string, items: seq<WithContent>, appended: seq<bool>)
      requires Valid() && |appended| == |items|
      modifies this
      ensures Valid()
      ensures existing == old(existing) + LinksOf(items)
      ensures rows == old(rows) + SavedRows(old(existing), query, items, appended)
    {
      ghost var existing0 := existing;
      ghost var rows0 := rows;
      var i := 0;
      while i < |items|
        invariant i <= |items|
        invariant existing == existing0 + LinksOf(items[..i])
        invariant rows0 + SavedRows(existing0, query, items, appended)
               == rows + SavedRows(existing, query, items[i..], appended[i..])
        invariant Valid()
        decreases |items| - i
      {
        SaveOne(existing, query, items, appended, i, rows);
        LinksOfSnoc(items, i);
        var w := items[i];
        ghost var step := SaveStep(existing, query, w, appended[i]);
        ghost var rowsBefore := rows;
        ghost var existingBefore := existing;
        if w.link !in existing {
          existing := existing + {w.link};
          if appended[i] {
            rows := rows + [RowFor(query, w)];
          }
        }
        assert rows == rowsBefore + step;
        assert existing == existingBefore + {w.link};
        i := i + 1;
      }
      assert items[..|items|] == items;
    }
  }

  lemma LinksOfSnoc(items: seq<WithContent>, i: nat)
    requires i < |items|
    ensures LinksOf(items[..i + 1]) == LinksOf(items[..i]) + {items[i].link}
  {
    var s := items[..i + 1];
    assert s[i] == items[i];
    forall u | u in LinksOf(items[..i])
      ensures u in LinksOf(s)
    {
      var k :| 0 <= k < i && items[..i][k].link == u;
      assert s[k] == items[..i][k];
    }
  }

  /** One more item of the save loop: what the rest of the loop appends. */
  lemma SaveOne(existing: set<string>, query: string, items: seq<WithContent>, appended: seq<bool>, i: nat, rows: seq<SheetRow>)
    requires |appended| == |items| && i < |items|
    ensures rows + SavedRows(existing, query, items[i..], appended[i..])
         == (rows + SaveStep(existing, query, items[i], appended[i]))
            + SavedRows(existing + {items[i].link}, query, items[i + 1..], appended[i + 1..])
  {
    assert items[i..][1..] == items[i + 1..];
    assert appended[i..][1..] == appended[i + 1..];
    var step := SaveStep(existing, query, items[i], appended[i]);
    var rest := SavedRows(existing + {items[i].link}, query, items[i + 1..], appended[i + 1..]);
    assert rows + (step + rest) == (rows + step) + rest;
  }
}
