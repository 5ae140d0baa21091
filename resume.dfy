/**
 * Resuming an interrupted analysis: the URLs already recorded in the output
 * sheet are read back into a set, and only the input articles whose URL is
 * not in that set are analysed again.
 */
module Resume {
  import opened Wrappers
  import opened PyStr
  import opened Reconcile

  /** A worksheet as `get_all_values` returns it: rows of cells, the header row first. */
  type Sheet = seq<seq<string>>

  /** Lower-cased header names that mark the URL column of the output sheet. */
  const OutputUrlNames: seq<string> := ["근거 기사 url", "근거기사url", "url", "링크"]
  /** Lower-cased header names that mark the URL column of the input sheet. */
  const InputUrlNames: seq<string> := ["url", "링크", "기사url", "기사 url"]

  /** The first column, from `k` on, whose lower-cased header is one of `names`. */
  function FindColumnFrom(headers: seq<string>, names: seq<string>, k: nat): (r: Option<nat>)
    requires k <= |headers|
    ensures r.Some? ==> k <= r.value < |headers| && Lower(headers[r.value]) in names
    ensures r.Some? ==> forall j :: k <= j < r.value ==> Lower(headers[j]) !in names
    ensures r.None? <==> forall j :: k <= j < |headers| ==> Lower(headers[j]) !in names
    decreases |headers| - k
  {
    if k == |headers| then None
    else if Lower(headers[k]) in names then Some(k)
    else FindColumnFrom(headers, names, k + 1)
  }

  /** The first column whose lower-cased header is one of `names`, if any. */
  function FindColumn(headers: seq<string>, names: seq<string>): Option<nat> {
    FindColumnFrom(headers, names, 0)
  }

  /** `for idx, h in enumerate(headers): if h.lower() in names: ...; break`. */
  method FindUrlColumn(headers: seq<string>, names: seq<string>) returns (idx: Option<nat>)
    ensures idx.Some? ==> idx.value < |headers| && Lower(headers[idx.value]) in names
    ensures idx.Some? ==> forall j :: 0 <= j < idx.value ==> Lower(headers[j]) !in names
    ensures idx.None? <==> forall j :: 0 <= j < |headers| ==> Lower(headers[j]) !in names
    ensures idx == FindColumn(headers, names)
  {
    idx := None;
    var k := 0;
    while k < |headers|
      invariant k <= |headers|
      invariant FindColumnFrom(headers, names, k) == FindColumn(headers, names)
      decreases |headers| - k
    {
      if Lower(headers[k]) in names {
        idx := Some(k);
        return;
      }
      k := k + 1;
    }
  }

  /** What one data row adds to the set: its stripped URL cell, when the row reaches column `c` and that cell is not empty. */
  function RowUrl(row: seq<string>, c: nat): Option<string> {
    if |row| > c && row[c] != [] then Some(Strip(row[c])) else None
  }

  /** The URLs the data rows `rows` add. */
  function UrlsOf(rows: Sheet, c: nat): set<string>
    decreases |rows|
  {
    if rows == [] then {}
    else
      var last := RowUrl(rows[|rows| - 1], c);
      UrlsOf(rows[..|rows| - 1], c) + (if last.Some? then {last.value} else {})
  }

  /** A URL is in the set exactly when some data row contributes it. */
  lemma {:induction false} UrlsOfMembers(rows: Sheet, c: nat, u: string)
    ensures u in UrlsOf(rows, c) <==> exists k :: 0 <= k < |rows| && RowUrl(rows[k], c) == Some(u)
    decreases |rows|
  {
    if rows != [] {
      var init := rows[..|rows| - 1];
      UrlsOfMembers(init, c, u);
      if u in UrlsOf(init, c) {
        var k :| 0 <= k < |init| && RowUrl(init[k], c) == Some(u);
        assert rows[k] == init[k];
      }
      if exists k :: 0 <= k < |rows| && RowUrl(rows[k], c) == Some(u) {
        var k :| 0 <= k < |rows| && RowUrl(rows[k], c) == Some(u);
        if k < |init| {
          assert init[k] == rows[k];
        }
      }
    }
  }

  /**
   * `get_already_processed_urls`, fed with what reading the output sheet
   * gave (`None` when reading raised, which the source maps to the empty set).
   */
  function ProcessedUrls(read: Option<Sheet>): set<string> {
    match read
    case None => {}
    case Some(data) =>
      if |data| <= 1 then {}
      else match FindColumn(data[0], OutputUrlNames)
        case None => {}
        case Some(c) => UrlsOf(data[1..], c)
  }

  /**
   * The set holds exactly the stripped, non-empty-before-stripping cells of
   * the first URL column, taken from the rows after the header; a sheet with
   * at most a header, or with no URL column, gives the empty set.
   */
  lemma ProcessedMembers(data: Sheet, u: string)
    ensures u in ProcessedUrls(Some(data)) <==>
      && |data| > 1
      && FindColumn(data[0], OutputUrlNames).Some?
      && exists k :: 1 <= k < |data| && RowUrl(data[k], FindColumn(data[0], OutputUrlNames).value) == Some(u)
  {
    if |data| > 1 && FindColumn(data[0], OutputUrlNames).Some? {
      var c := FindColumn(data[0], OutputUrlNames).value;
      var rows := data[1..];
      UrlsOfMembers(rows, c, u);
      if exists k :: 0 <= k < |rows| && RowUrl(rows[k], c) == Some(u) {
        var k :| 0 <= k < |rows| && RowUrl(rows[k], c) == Some(u);
        assert RowUrl(data[k + 1], c) == Some(u);
      }
      if exists k :: 1 <= k < |data| && RowUrl(data[k], c) == Some(u) {
        var k :| 1 <= k < |data| && RowUrl(data[k], c) == Some(u);
        assert rows[k - 1] == data[k];
      }
    }
  }

  /** A URL written into the output sheet's URL column is read back, stripped, as processed. */
  lemma RecordedUrlProcessed(data: Sheet, k: nat, c: nat)
    requires 1 <= k < |data| && FindColumn(data[0], OutputUrlNames) == Some(c)
    requires |data[k]| > c && data[k][c] != []
    ensures Strip(data[k][c]) in ProcessedUrls(Some(data))
  {
    ProcessedMembers(data, Strip(data[k][c]));
  }

  /** Every processed URL is already stripped: it has no whitespace at either end. */
  lemma ProcessedAreStripped(read: Option<Sheet>, u: string)
    requires u in ProcessedUrls(read)
    ensures Strip(u) == u
  {
    var data := read.value;
    ProcessedMembers(data, u);
    var c := FindColumn(data[0], OutputUrlNames).value;
    var k :| 1 <= k < |data| && RowUrl(data[k], c) == Some(u);
    StripIdempotent(data[k][c]);
  }

  lemma UrlsOfSnoc(rows: Sheet, i: nat, c: nat)
    requires i < |rows|
    ensures UrlsOf(rows[..i + 1], c) == UrlsOf(rows[..i], c) + (if RowUrl(rows[i], c).Some? then {RowUrl(rows[i], c).value} else {})
  {
    assert rows[..i + 1][..i] == rows[..i];
  }

  /** `get_already_processed_urls`: the header search, then the loop that fills `processed_urls`. */
  method GetAlreadyProcessedUrls(read: Option<Sheet>) returns (urls: set<string>)
    ensures urls == ProcessedUrls(read)
  {
    urls := {};
    if read.None? || |read.value| <= 1 {
      return;
    }
    var data := read.value;
    var idx := FindUrlColumn(data[0], OutputUrlNames);
    if idx.None? {
      return;
    }
    var c := idx.value;
    var rows := data[1..];
    for i := 0 to |rows|
      invariant urls == UrlsOf(rows[..i], c)
    {
      UrlsOfSnoc(rows, i, c);
      if |rows[i]| > c && rows[i][c] != [] {
        urls := urls + {Strip(rows[i][c])};
      }
    }
    assert rows[..|rows|] == rows;
  }

  /**
   * `df_news[~df_news[url_col].isin(processed_urls)]`, as written: the raw
   * cell of the input URL column is compared with the set. Without a URL
   * column (`urlCol` false) every article is kept.
   */
  function SelectNew(articles: seq<Article>, urlCol: bool, processed: set<string>): (kept: seq<Article>)
    ensures |kept| <= |articles|
    ensures forall a :: a in kept <==> a in articles && (urlCol ==> a.url !in processed)
    decreases |articles|
  {
    if articles == [] then []
    else
      var rest := SelectNew(articles[1..], urlCol, processed);
      if urlCol && articles[0].url in processed then rest else [articles[0]] + rest
  }

  /** The filter keeps the articles' order: it works piecewise over a concatenation. */
  lemma {:induction false} SelectNewConcat(xs: seq<Article>, ys: seq<Article>, urlCol: bool, processed: set<string>)
    ensures SelectNew(xs + ys, urlCol, processed) == SelectNew(xs, urlCol, processed) + SelectNew(ys, urlCol, processed)
    decreases |xs|
  {
    if xs != [] {
      assert (xs + ys)[1..] == xs[1..] + ys;
      SelectNewConcat(xs[1..], ys, urlCol, processed);
    } else {
      assert xs + ys == ys;
    }
  }

  /**
   * As written, an article whose URL cell has whitespace at either end is
   * selected again on every run, whatever the output sheet holds: its record
   * stores the stripped URL, and every processed URL is stripped.
   */
  lemma PaddedUrlReselected(a: Article, read: Option<Sheet>)
    requires Strip(a.url) != a.url
    ensures forall articles :: a in articles ==> a in SelectNew(articles, true, ProcessedUrls(read))
  {
    if a.url in ProcessedUrls(read) {
      ProcessedAreStripped(read, a.url);
    }
  }

  /** Such a URL cell exists: `" x"` strips to `"x"`. */
  lemma PaddedUrlExists()
    ensures Strip(" x") == "x" != " x"
  {
    var s := " x";
    assert IsSpace(s[0]) && !IsSpace(s[1]);
    assert LTrim(s, Space) == "x" by {
      RunIs(s, 0, 1, Space);
    }
    StripUnchanged("x");
  }

  /**
   * The filter compared on the stripped cell, which is the form in which
   * records store URLs (`MatchedUrl`) and the form the set holds.
   */
  function SelectNewStripped(articles: seq<Article>, urlCol: bool, processed: set<string>): (kept: seq<Article>)
    ensures |kept| <= |articles|
    ensures forall a :: a in kept <==> a in articles && (urlCol ==> Strip(a.url) !in processed)
    decreases |articles|
  {
    if articles == [] then []
    else
      var rest := SelectNewStripped(articles[1..], urlCol, processed);
      if urlCol && Strip(articles[0].url) in processed then rest else [articles[0]] + rest
  }

  /**
   * With the stripped comparison, an article whose record has been written
   * into the output sheet's URL column (row `k`, column `c`) is not selected
   * again.
   */
  lemma RecordedArticleNotReselected(a: Article, articles: seq<Article>, data: Sheet, k: nat, c: nat)
    requires 1 <= k < |data| && FindColumn(data[0], OutputUrlNames) == Some(c)
    requires |data[k]| > c && data[k][c] == MatchedUrl(a, true) && data[k][c] != []
    ensures a !in SelectNewStripped(articles, true, ProcessedUrls(Some(data)))
  {
    RecordedUrlProcessed(data, k, c);
    StripIdempotent(a.url);
  }
}
