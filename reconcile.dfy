/**
 * Turning one batch's LLM reply into partnership records: the reply is
 * cleaned (failure sentinels, blank replies, a Markdown code fence), read as
 * CSV, and every CSV row is attached to the batch article whose headline it
 * names, from which the record takes its URL and date.
 *
 * The async pipeline and the sync one differ in three ways, each modelled:
 * a CSV error discards the async batch but keeps the rows the sync one read
 * before it; the async one falls back to the LLM's title when the matched
 * headline is only a date; and the sync one runs a second date pass over
 * all records (`add_article_dates`).
 */
module Reconcile {
  import opened Wrappers
  import opened PyStr
  import opened DateExtract
  import opened Batching
  import LlmClient

  /** An input article: its headline (`제목`), body (`본문`) and the value of its URL column. */
  datatype Article = Article(title: string, body: string, url: string)

  /** A CSV data row, as `csv.DictReader` yields it. */
  type CsvRow = map<string, string>

  /** What the CSV reader yields before it stops: the rows, and whether it stopped by raising. */
  datatype CsvParse = CsvParse(rows: seq<CsvRow>, failed: bool)

  /** An output row of the partnership sheet. */
  datatype Record = Record(business: string, competitor: string, partner: string, kind: string,
                           title: string, url: string, date: string)

  const TitleColumn := "근거 기사 제목"
  const BusinessColumn := "사업명"
  const PartnerColumn := "협력사/기관명"
  const KindColumn := "협력 유형"

  /** `row.get(key, "")`. */
  function Get(row: CsvRow, key: string): string {
    if key in row then row[key] else []
  }

  /** `date_str or ""`. */
  function OrEmpty(d: Option<string>): string {
    if d.Some? then d.value else []
  }

  predicate StartsWith(s: string, p: string) {
    |p| <= |s| && s[..|p|] == p
  }

  const Fence := "```"

  /** `re.sub(r"^```[a-zA-Z]*", "", s)` on text that starts with the fence. */
  function DropFence(s: string): string
    requires StartsWith(s, Fence)
  {
    s[3 + Run(s, 3, AsciiLetter)..]
  }

  /**
   * The text handed to the CSV reader, or `None` when the batch yields no
   * rows before parsing: a failure sentinel or a blank reply. A fenced
   * reply loses its opening fence and language tag and its closing
   * backticks. The quota sentinel is not among those checked.
   */
  function CleanResponse(reply: string): (r: Option<string>)
    ensures r.None? <==> reply == LlmClient.ApiFailure || reply == LlmClient.ProcessingFailure || Strip(reply) == []
    ensures r.Some? ==> r.value == [] || (!IsSpace(r.value[0]) && !IsSpace(r.value[|r.value| - 1]))
    ensures r.Some? && !StartsWith(Strip(reply), Fence) ==> r.value == Strip(reply)
  {
    if reply == LlmClient.ApiFailure || reply == LlmClient.ProcessingFailure then None
    else
      var s := Strip(reply);
      if s == [] then None
      else if StartsWith(s, Fence) then Some(Strip(RTrim(DropFence(s), Backtick)))
      else Some(s)
  }

  /** The quota sentinel is not filtered: it reaches the CSV reader as it is. */
  lemma QuotaSentinelParsed()
    ensures CleanResponse(LlmClient.QuotaFailure) == Some(LlmClient.QuotaFailure)
  {
    var q := LlmClient.QuotaFailure;
    assert q[0] == 'A' && q[|q| - 1] == ')';
    StripUnchanged(q);
    assert q[..3] != Fence;
  }

  /** Trailing backticks after a text that does not end in one are all removed. */
  lemma RTrimBackticks(a: string)
    requires a != [] && a[|a| - 1] != '`'
    ensures RTrim(a + Fence, Backtick) == a
  {
    assert (a + Fence)[..|a| + 2] == a + "``";
    assert (a + "``")[..|a| + 1] == a + "`";
    assert (a + "`")[..|a|] == a;
    assert TrailStart(a, Backtick) == |a|;
  }

  /** The opening fence and its language tag are removed, up to the first character that is not a letter. */
  lemma FenceUnwrap(tag: string, rest: string)
    requires forall i :: 0 <= i < |tag| ==> IsAsciiLetter(tag[i])
    requires rest != [] && !IsAsciiLetter(rest[0])
    ensures StartsWith(Fence + tag + rest, Fence) && DropFence(Fence + tag + rest) == rest
  {
    var s := Fence + tag + rest;
    assert s[..3] == Fence;
    assert s[3 + |tag|] == rest[0];
    RunIs(s, 3, |tag|, AsciiLetter);
    assert s[3 + |tag|..] == rest;
  }

  /** A line of text between two line breaks, stripped, is the text. */
  lemma StripLine(csv: string)
    requires csv != [] && !IsSpace(csv[0]) && !IsSpace(csv[|csv| - 1])
    ensures Strip("\n" + csv + "\n") == csv
  {
    var body := "\n" + csv + "\n";
    RunIs(body, 0, 1, Space);
    assert LTrim(body, Space) == csv + "\n";
    assert (csv + "\n")[..|csv|] == csv;
    assert TrailStart(csv + "\n", Space) == |csv|;
  }

  /**
   * A reply fenced as a Markdown code block (an opening fence with an
   * optional language tag on its own line, the CSV, a closing fence) is
   * unwrapped to exactly the CSV.
   */
  lemma FencedReply(tag: string, csv: string)
    requires forall i :: 0 <= i < |tag| ==> IsAsciiLetter(tag[i])
    requires csv != [] && !IsSpace(csv[0]) && !IsSpace(csv[|csv| - 1]) && csv[|csv| - 1] != '`'
    ensures CleanResponse(Fence + tag + "\n" + csv + "\n" + Fence) == Some(csv)
  {
    var body := "\n" + csv + "\n";
    var reply := Fence + tag + (body + Fence);
    assert Fence + tag + "\n" + csv + "\n" + Fence == reply;
    assert reply[0] == '`' && reply[|reply| - 1] == '`';
    StripUnchanged(reply);
    assert LlmClient.ApiFailure[0] != '`' && LlmClient.ProcessingFailure[0] != '`';
    FenceUnwrap(tag, body + Fence);
    RTrimBackticks(body);
    StripLine(csv);
  }

  /** The first tier: one headline contains the other. */
  predicate Contained(llm: string, orig: string) {
    Contains(orig, llm) || Contains(llm, orig)
  }

  /** The second tier, for headlines longer than 10: one contains the other's first 30 characters. */
  predicate SharesOpening(llm: string, orig: string) {
    |llm| > 10 && |orig| > 10 && (Contains(orig, Prefix(llm, 30)) || Contains(llm, Prefix(orig, 30)))
  }

  /** Whether the LLM's title names the article with stripped headline `orig`. */
  predicate TitlesMatch(llm: string, orig: string) {
    orig != [] && llm != [] && (Contained(llm, orig) || SharesOpening(llm, orig))
  }

  /** Article `i` is the first of the batch whose headline the LLM's title names. */
  predicate IsFirstMatch(batch: seq<Article>, llm: string, i: int) {
    && 0 <= i < |batch| && TitlesMatch(llm, Strip(batch[i].title))
    && forall j :: 0 <= j < i ==> !TitlesMatch(llm, Strip(batch[j].title))
  }

  /** The first article from index `k` on that the LLM's title names. */
  function FirstMatchFrom(batch: seq<Article>, llm: string, k: nat): (r: Option<nat>)
    requires k <= |batch|
    ensures r.Some? ==> k <= r.value < |batch| && TitlesMatch(llm, Strip(batch[r.value].title))
    ensures r.Some? ==> forall j :: k <= j < r.value ==> !TitlesMatch(llm, Strip(batch[j].title))
    ensures r.None? ==> forall j :: k <= j < |batch| ==> !TitlesMatch(llm, Strip(batch[j].title))
    decreases |batch| - k
  {
    if k == |batch| then None
    else if TitlesMatch(llm, Strip(batch[k].title)) then Some(k)
    else FirstMatchFrom(batch, llm, k + 1)
  }

  function FirstMatch(batch: seq<Article>, llm: string): Option<nat> {
    FirstMatchFrom(batch, llm, 0)
  }

  /** The search finds article `i` exactly when `i` is the first article the LLM's title names. */
  lemma FirstMatchSpec(batch: seq<Article>, llm: string, i: nat)
    ensures FirstMatch(batch, llm) == Some(i) <==> IsFirstMatch(batch, llm, i)
  {
    var m := FirstMatch(batch, llm);
    if IsFirstMatch(batch, llm, i) && m.Some? {
      var j := m.value;
      assert TitlesMatch(llm, Strip(batch[j].title));
    }
  }

  /** The loop over the batch's articles that stops at the first headline the LLM's title names. */
  method MatchArticle(batch: seq<Article>, llm: string) returns (m: Option<nat>)
    ensures m == FirstMatch(batch, llm)
  {
    var i := 0;
    while i < |batch|
      invariant i <= |batch| && FirstMatchFrom(batch, llm, i) == FirstMatch(batch, llm)
    {
      var orig := Strip(batch[i].title);
      if orig != [] && llm != [] {
        if Contains(orig, llm) || Contains(llm, orig) {
          return Some(i);
        } else if |llm| > 10 && |orig| > 10 {
          if Contains(orig, Prefix(llm, 30)) || Contains(llm, Prefix(orig, 30)) {
            return Some(i);
          }
        }
      }
      i := i + 1;
    }
    return None;
  }

  /** An LLM title that copies a headline finds that article, or an earlier one it also names. */
  lemma CopiedTitleFound(batch: seq<Article>, llm: string, i: nat)
    requires i < |batch| && llm != [] && Strip(batch[i].title) == llm
    ensures FirstMatch(batch, llm).Some? && FirstMatch(batch, llm).value <= i
  {
    ContainsAt(llm, llm, 0);
  }

  /** An LLM title that keeps a headline's first 30 characters but rewrites the rest still names it. */
  lemma SameOpeningMatches(llm: string, orig: string)
    requires |llm| >= 30 && |orig| >= 30 && llm[..30] == orig[..30]
    ensures TitlesMatch(llm, orig)
  {
    ContainsAt(orig, Prefix(llm, 30), 0);
  }

  /** `business_name or row.get("사업명", "")`. */
  function Business(business: string, row: CsvRow): string {
    if business != [] then business else Get(row, BusinessColumn)
  }

  /** The URL a matched article gives its record. */
  function MatchedUrl(a: Article, urlCol: bool): string {
    if urlCol then Strip(a.url) else []
  }

  /**
   * The record `process_batch_async` builds from one CSV row: the matched
   * article's URL, and its headline's date and date-free headline; the LLM's
   * title and its date when nothing matched or the headline held nothing
   * but a date.
   */
  function AsyncRecord(row: CsvRow, batch: seq<Article>, competitor: string, business: string, urlCol: bool): (r: Record)
    ensures r.competitor == competitor && r.partner == Get(row, PartnerColumn) && r.kind == Get(row, KindColumn)
  {
    var llm := Strip(Get(row, TitleColumn));
    var m := FirstMatch(batch, llm);
    var found := if m.Some? then TitleDate(Strip(batch[m.value].title)) else (None, []);
    var url := if m.Some? then MatchedUrl(batch[m.value], urlCol) else [];
    var final := if found.1 == [] then TitleDate(llm) else found;
    Record(Business(business, row), competitor, Get(row, PartnerColumn), Get(row, KindColumn), final.1, url, OrEmpty(final.0))
  }

  /** The record the sync pipeline builds: one date extraction, on the matched headline or else on the LLM's title. */
  function SyncRecord(row: CsvRow, batch: seq<Article>, competitor: string, business: string, urlCol: bool): (r: Record)
    ensures r.competitor == competitor && r.partner == Get(row, PartnerColumn) && r.kind == Get(row, KindColumn)
  {
    var llm := Strip(Get(row, TitleColumn));
    var m := FirstMatch(batch, llm);
    var chosen := if m.Some? then Strip(batch[m.value].title) else llm;
    var url := if m.Some? then MatchedUrl(batch[m.value], urlCol) else [];
    var found := TitleDate(chosen);
    Record(Business(business, row), competitor, Get(row, PartnerColumn), Get(row, KindColumn), found.1, url, OrEmpty(found.0))
  }

  /**
   * What an async record carries: with no article named, the LLM's title
   * and its date and no URL; with article `i` the first named, its URL,
   * and its date-free headline and date unless that headline is empty.
   */
  lemma AsyncRecordSpec(row: CsvRow, batch: seq<Article>, competitor: string, business: string, urlCol: bool, i: nat)
    ensures var llm := Strip(Get(row, TitleColumn));
            var r := AsyncRecord(row, batch, competitor, business, urlCol);
            (forall j :: 0 <= j < |batch| ==> !TitlesMatch(llm, Strip(batch[j].title))) ==>
              r.url == [] && r.title == TitleDate(llm).1 && r.date == OrEmpty(TitleDate(llm).0)
    ensures var llm := Strip(Get(row, TitleColumn));
            var r := AsyncRecord(row, batch, competitor, business, urlCol);
            IsFirstMatch(batch, llm, i) ==>
              var found := TitleDate(Strip(batch[i].title));
              && r.url == MatchedUrl(batch[i], urlCol)
              && (found.1 != [] ==> r.title == found.1 && r.date == OrEmpty(found.0))
              && (found.1 == [] ==> r.title == TitleDate(llm).1 && r.date == OrEmpty(TitleDate(llm).0))
  {
    FirstMatchSpec(batch, Strip(Get(row, TitleColumn)), i);
  }

  /**
   * The two pipelines build the same record unless the matched headline is
   * nothing but a date; then the sync record's title is empty, where the
   * async one falls back to the LLM's title.
   */
  lemma SyncAsyncAgree(row: CsvRow, batch: seq<Article>, competitor: string, business: string, urlCol: bool)
    ensures var m := FirstMatch(batch, Strip(Get(row, TitleColumn)));
            m.None? || TitleDate(Strip(batch[m.value].title)).1 != [] ==>
              SyncRecord(row, batch, competitor, business, urlCol) == AsyncRecord(row, batch, competitor, business, urlCol)
    ensures var m := FirstMatch(batch, Strip(Get(row, TitleColumn)));
            m.Some? && TitleDate(Strip(batch[m.value].title)).1 == [] ==>
              SyncRecord(row, batch, competitor, business, urlCol).title == []
  {
  }

  /** One async record per CSV row, in order. */
  function AsyncRecords(rows: seq<CsvRow>, batch: seq<Article>, competitor: string, business: string, urlCol: bool): (rs: seq<Record>)
    ensures |rs| == |rows|
    decreases |rows|
  {
    if rows == [] then []
    else AsyncRecords(rows[..|rows| - 1], batch, competitor, business, urlCol) + [AsyncRecord(rows[|rows| - 1], batch, competitor, business, urlCol)]
  }

  /** One more row appends its record. */
  lemma AsyncRecordsSnoc(rows: seq<CsvRow>, k: nat, batch: seq<Article>, competitor: string, business: string, urlCol: bool)
    requires k < |rows|
    ensures AsyncRecords(rows[..k + 1], batch, competitor, business, urlCol)
            == AsyncRecords(rows[..k], batch, competitor, business, urlCol) + [AsyncRecord(rows[k], batch, competitor, business, urlCol)]
  {
    assert rows[..k + 1][..k] == rows[..k];
  }

  /** Record `k` of the batch is the record of CSV row `k`. */
  lemma {:induction false} AsyncRecordsAt(rows: seq<CsvRow>, batch: seq<Article>, competitor: string, business: string, urlCol: bool, k: nat)
    requires k < |rows|
    ensures AsyncRecords(rows, batch, competitor, business, urlCol)[k] == AsyncRecord(rows[k], batch, competitor, business, urlCol)
    decreases |rows|
  {
    if k < |rows| - 1 {
      AsyncRecordsAt(rows[..|rows| - 1], batch, competitor, business, urlCol, k);
    }
  }

  /** One sync record per CSV row, in order. */
  function SyncRecords(rows: seq<CsvRow>, batch: seq<Article>, competitor: string, business: string, urlCol: bool): (rs: seq<Record>)
    ensures |rs| == |rows|
    decreases |rows|
  {
    if rows == [] then []
    else SyncRecords(rows[..|rows| - 1], batch, competitor, business, urlCol) + [SyncRecord(rows[|rows| - 1], batch, competitor, business, urlCol)]
  }

  /** One more row appends its record. */
  lemma SyncRecordsSnoc(rows: seq<CsvRow>, k: nat, batch: seq<Article>, competitor: string, business: string, urlCol: bool)
    requires k < |rows|
    ensures SyncRecords(rows[..k + 1], batch, competitor, business, urlCol)
            == SyncRecords(rows[..k], batch, competitor, business, urlCol) + [SyncRecord(rows[k], batch, competitor, business, urlCol)]
  {
    assert rows[..k + 1][..k] == rows[..k];
  }

  /** Record `k` of the batch is the record of CSV row `k`. */
  lemma {:induction false} SyncRecordsAt(rows: seq<CsvRow>, batch: seq<Article>, competitor: string, business: string, urlCol: bool, k: nat)
    requires k < |rows|
    ensures SyncRecords(rows, batch, competitor, business, urlCol)[k] == SyncRecord(rows[k], batch, competitor, business, urlCol)
    decreases |rows|
  {
    if k < |rows| - 1 {
      SyncRecordsAt(rows[..|rows| - 1], batch, competitor, business, urlCol, k);
    }
  }

  /**
   * `process_batch_async`'s result: nothing for a sentinel or blank reply or
   * when the CSV reader raised; otherwise one record per row.
   */
  function AsyncBatch(reply: string, parse: string -> CsvParse, batch: seq<Article>, competitor: string, business: string, urlCol: bool): (rs: seq<Record>)
    ensures CleanResponse(reply).None? ==> rs == []
    ensures CleanResponse(reply).Some? && parse(CleanResponse(reply).value).failed ==> rs == []
    ensures CleanResponse(reply).Some? && !parse(CleanResponse(reply).value).failed ==>
      |rs| == |parse(CleanResponse(reply).value).rows|
  {
    match CleanResponse(reply)
    case None => []
    case Some(text) =>
      var p := parse(text);
      if p.failed then [] else AsyncRecords(p.rows, batch, competitor, business, urlCol)
  }

  /** The sync loop body's contribution: rows read before a CSV error are kept. */
  function SyncBatch(reply: string, parse: string -> CsvParse, batch: seq<Article>, competitor: string, business: string, urlCol: bool): (rs: seq<Record>)
    ensures CleanResponse(reply).None? ==> rs == []
    ensures CleanResponse(reply).Some? ==> |rs| == |parse(CleanResponse(reply).value).rows|
  {
    match CleanResponse(reply)
    case None => []
    case Some(text) => SyncRecords(parse(text).rows, batch, competitor, business, urlCol)
  }

  /** A CSV error after some rows loses them in the async pipeline and keeps them in the sync one. */
  lemma CsvErrorDiffers(reply: string, parse: string -> CsvParse, batch: seq<Article>, competitor: string, business: string, urlCol: bool)
    requires CleanResponse(reply).Some?
    requires parse(CleanResponse(reply).value).failed && parse(CleanResponse(reply).value).rows != []
    ensures AsyncBatch(reply, parse, batch, competitor, business, urlCol) == []
    ensures |SyncBatch(reply, parse, batch, competitor, business, urlCol)| == |parse(CleanResponse(reply).value).rows| > 0
  {
  }

  /** The async record for one row, computed as the source does, with the date extraction loop. */
  method BuildAsyncRecord(row: CsvRow, batch: seq<Article>, competitor: string, business: string, urlCol: bool) returns (r: Record)
    ensures r == AsyncRecord(row, batch, competitor, business, urlCol)
  {
    var llm := Strip(Get(row, TitleColumn));
    var m := MatchArticle(batch, llm);
    var date: Option<string> := None;
    var title: string := [];
    var url: string := [];
    if m.Some? {
      url := MatchedUrl(batch[m.value], urlCol);
      date, title := ExtractDateFromTitle(Strip(batch[m.value].title));
    }
    if title == [] {
      date, title := ExtractDateFromTitle(llm);
    }
    r := Record(Business(business, row), competitor, Get(row, PartnerColumn), Get(row, KindColumn), title, url, OrEmpty(date));
  }

  /** The loop over the CSV rows, one record appended per row. */
  method BuildAsyncRecords(read: seq<CsvRow>, batch: seq<Article>, competitor: string, business: string, urlCol: bool)
    returns (rows: seq<Record>)
    ensures rows == AsyncRecords(read, batch, competitor, business, urlCol)
  {
    rows := [];
    for k := 0 to |read|
      invariant rows == AsyncRecords(read[..k], batch, competitor, business, urlCol)
    {
      var r := BuildAsyncRecord(read[k], batch, competitor, business, urlCol);
      AsyncRecordsSnoc(read, k, batch, competitor, business, urlCol);
      rows := rows + [r];
    }
    assert read[..|read|] == read;
  }

  /** `process_batch_async` after the LLM call: clean, parse, and append one record per row. */
  method ProcessBatchAsync(reply: string, parse: string -> CsvParse, batch: seq<Article>, competitor: string, business: string, urlCol: bool)
    returns (rows: seq<Record>)
    ensures rows == AsyncBatch(reply, parse, batch, competitor, business, urlCol)
  {
    var cleaned := CleanResponse(reply);
    if cleaned.None? {
      return [];
    }
    var p := parse(cleaned.value);
    if p.failed {
      return [];
    }
    rows := BuildAsyncRecords(p.rows, batch, competitor, business, urlCol);
  }

  /** The sync record for one row, with the date extraction loop. */
  method BuildSyncRecord(row: CsvRow, batch: seq<Article>, competitor: string, business: string, urlCol: bool) returns (r: Record)
    ensures r == SyncRecord(row, batch, competitor, business, urlCol)
  {
    var llm := Strip(Get(row, TitleColumn));
    var m := MatchArticle(batch, llm);
    var chosen := llm;
    var url: string := [];
    if m.Some? {
      chosen := Strip(batch[m.value].title);
      url := MatchedUrl(batch[m.value], urlCol);
    }
    var date, title := ExtractDateFromTitle(chosen);
    r := Record(Business(business, row), competitor, Get(row, PartnerColumn), Get(row, KindColumn), title, url, OrEmpty(date));
  }

  /** The records of the first `n` batches of a competitor in the sync pipeline, reply `i` answering batch `i`. */
  function SyncBatches(bs: seq<seq<Article>>, replies: nat -> string, parse: string -> CsvParse,
                       competitor: string, business: string, urlCol: bool): (rs: seq<Record>)
    decreases |bs|
  {
    if bs == [] then []
    else SyncBatches(bs[..|bs| - 1], replies, parse, competitor, business, urlCol)
         + SyncBatch(replies(|bs| - 1), parse, bs[|bs| - 1], competitor, business, urlCol)
  }

  /** The loop over the CSV rows, one record appended per row. */
  method BuildSyncRecords(read: seq<CsvRow>, batch: seq<Article>, competitor: string, business: string, urlCol: bool)
    returns (rows: seq<Record>)
    ensures rows == SyncRecords(read, batch, competitor, business, urlCol)
  {
    rows := [];
    for k := 0 to |read|
      invariant rows == SyncRecords(read[..k], batch, competitor, business, urlCol)
    {
      var r := BuildSyncRecord(read[k], batch, competitor, business, urlCol);
      SyncRecordsSnoc(read, k, batch, competitor, business, urlCol);
      rows := rows + [r];
    }
    assert read[..|read|] == read;
  }

  /** Answering batch `i` appends that batch's records to those of the batches before it. */
  lemma SyncBatchesSnoc(bs: seq<seq<Article>>, i: nat, replies: nat -> string, parse: string -> CsvParse,
                        competitor: string, business: string, urlCol: bool)
    requires i < |bs|
    ensures SyncBatches(bs[..i + 1], replies, parse, competitor, business, urlCol)
            == SyncBatches(bs[..i], replies, parse, competitor, business, urlCol)
               + SyncBatch(replies(i), parse, bs[i], competitor, business, urlCol)
  {
    assert bs[..i + 1][..i] == bs[..i];
  }

  /** The sync loop body after the LLM call: clean, then append a record for each row the CSV reader yields. */
  method ProcessBatchSync(reply: string, parse: string -> CsvParse, batch: seq<Article>, competitor: string, business: string, urlCol: bool)
    returns (rows: seq<Record>)
    ensures rows == SyncBatch(reply, parse, batch, competitor, business, urlCol)
  {
    rows := [];
    var cleaned := CleanResponse(reply);
    if cleaned.Some? {
      rows := BuildSyncRecords(parse(cleaned.value).rows, batch, competitor, business, urlCol);
    }
  }

  /**
   * One competitor in the sync `main`: batches of five articles, each sent
   * to the LLM (`replies(i)` is the reply to batch `i`) and its rows
   * appended to `all_results` as they are read.
   */
  method SyncCompetitor(articles: seq<Article>, replies: nat -> string, parse: string -> CsvParse,
                        competitor: string, business: string, urlCol: bool)
    returns (results: seq<Record>)
    ensures results == SyncBatches(Batches(articles, ArticlesPerCallSync), replies, parse, competitor, business, urlCol)
  {
    var bs := SliceBatches(articles, ArticlesPerCallSync);
    results := [];
    for i := 0 to |bs|
      invariant results == SyncBatches(bs[..i], replies, parse, competitor, business, urlCol)
    {
      var rows := ProcessBatchSync(replies(i), parse, bs[i], competitor, business, urlCol);
      SyncBatchesSnoc(bs, i, replies, parse, competitor, business, urlCol);
      results := results + rows;
    }
    assert bs[..|bs|] == bs;
  }

  /** `add_article_dates` on one record as written: the date is whatever a second extraction finds, or `""`. */
  function RedateAsWritten(r: Record): Record {
    var found := TitleDate(r.title);
    r.(title := found.1, date := OrEmpty(found.0))
  }

  /** `add_article_dates` keeping the date already found when the second extraction finds none. */
  function Redate(r: Record): Record {
    var found := TitleDate(r.title);
    r.(title := found.1, date := KeepDate(found.0, r.date))
  }

  /** The date found, or else the one already held. */
  function KeepDate(found: Option<string>, prev: string): string {
    if found.Some? then found.value else prev
  }

  /**
   * The second pass erases dates: a record whose title no longer holds a
   * digit (its only date was cut out when the record was built) leaves
   * with an empty date, whatever date it had.
   */
  lemma RedateAsWrittenErasesDate(r: Record)
    requires r.date != [] && forall i :: 0 <= i < |r.title| ==> !IsDigit(r.title[i])
    ensures RedateAsWritten(r).date == [] && RedateAsWritten(r) == r.(date := [])
  {
    NoDigitNoDate(r.title);
  }

  /** The corrected pass never loses a date, and leaves a record whose title holds no date unchanged. */
  lemma RedateKeepsDate(r: Record)
    ensures r.date != [] ==> Redate(r).date != []
    ensures TitleDate(r.title).0.Some? ==> Redate(r) == r.(title := TitleDate(r.title).1, date := TitleDate(r.title).0.value)
    ensures (forall i :: 0 <= i < |r.title| ==> !IsDigit(r.title[i])) ==> Redate(r) == r
  {
    TitleDateNonEmpty(r.title);
    if forall i :: 0 <= i < |r.title| ==> !IsDigit(r.title[i]) {
      NoDigitNoDate(r.title);
    }
  }

  /** One pass of `add_article_dates`'s loop, as written. */
  method RedateOneAsWritten(r: Record) returns (out: Record)
    ensures out == RedateAsWritten(r)
  {
    var date, title := ExtractDateFromTitle(r.title);
    out := r.(title := title, date := OrEmpty(date));
  }

  /** One pass of the corrected loop. */
  method RedateOne(r: Record) returns (out: Record)
    ensures out == Redate(r)
  {
    var date, title := ExtractDateFromTitle(r.title);
    var kept := if date.Some? then date.value else r.date;
    out := r.(title := title, date := kept);
  }

  /** `add_article_dates` as written, over all records. */
  method AddArticleDatesAsWritten(records: seq<Record>) returns (out: seq<Record>)
    ensures |out| == |records| && forall k :: 0 <= k < |records| ==> out[k] == RedateAsWritten(records[k])
  {
    out := [];
    for k := 0 to |records|
      invariant |out| == k && forall j :: 0 <= j < k ==> out[j] == RedateAsWritten(records[j])
    {
      var r := RedateOneAsWritten(records[k]);
      out := out + [r];
    }
  }

  /** `add_article_dates` with the date kept when the second extraction finds none. */
  method AddArticleDates(records: seq<Record>) returns (out: seq<Record>)
    ensures |out| == |records| && forall k :: 0 <= k < |records| ==> out[k] == Redate(records[k])
  {
    out := [];
    for k := 0 to |records|
      invariant |out| == k && forall j :: 0 <= j < k ==> out[j] == Redate(records[j])
    {
      var r := RedateOne(records[k]);
      out := out + [r];
    }
  }
}
