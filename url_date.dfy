/**
 * `extract_date_from_url`: a date written after a comma at the end of an
 * article URL (`…/article,25.10.22`), as a `YY.MM.DD` date.
 */
module UrlDate {
  import opened Wrappers
  import opened PyStr
  import opened DatePatterns
  import opened DateNormalize

  /** `(\d{2}\.\d{1,2}\.\d{1,2})(?:$|[/?#])`, then the same with a four-digit year; each follows a comma. */
  const UrlPatterns: seq<Shape> := [
    Dated(2, Lit('.'), Lit('.'), Open(UrlEnd)),
    Dated(4, Lit('.'), Lit('.'), Open(UrlEnd))
  ]

  /** The match attempts of `shape` that directly follow a comma; every other position fails. */
  function CommaAttempts(shape: Shape, s: string): (ms: seq<Option<Hit>>)
    ensures |ms| == |s| + 1 && Aligned(ms)
    ensures forall i :: 0 <= i < |ms| && ms[i].Some? ==> WellPlaced(ms[i].value, s) && DigitGroups(ms[i].value, s)
  {
    seq(|s| + 1, i requires 0 <= i <= |s| => if 0 < i && s[i - 1] == ',' then MatchAt(shape, s, i) else None)
  }

  /** The attempt after a comma is the match of `shape` there. */
  lemma CommaAttemptsAt(shape: Shape, s: string)
    ensures forall j ::
              0 < j <= |s| && s[j - 1] == ',' ==> CommaAttempts(shape, s)[j] == MatchAt(shape, s, j)
    ensures forall j ::
              0 <= j <= |s| && (j == 0 || s[j - 1] != ',') ==> CommaAttempts(shape, s)[j].None?
  {
  }

  /** `re.search(',' + shape, s)`, reported by the hit of `shape` after the comma. */
  function CommaSearch(shape: Shape, s: string): (r: Option<Hit>)
    ensures r.Some? ==> WellPlaced(r.value, s) && DigitGroups(r.value, s)
  {
    var ms := CommaAttempts(shape, s);
    if FirstFrom(ms, 0).Some? then
      FirstFromFound(ms, 0);
      FirstFrom(ms, 0)
    else None
  }

  /** What the comma search finds follows a comma and matches there, and no earlier comma is followed by a match. */
  lemma CommaSearchFound(shape: Shape, s: string)
    requires CommaSearch(shape, s).Some?
    ensures var h := CommaSearch(shape, s).value;
            && 0 < h.start <= |s| && s[h.start - 1] == ',' && MatchAt(shape, s, h.start) == Some(h)
            && forall j :: 0 < j < h.start && s[j - 1] == ',' ==> MatchAt(shape, s, j).None?
  {
    var ms := CommaAttempts(shape, s);
    CommaAttemptsAt(shape, s);
    FirstFromFound(ms, 0);
  }

  /** The comma search finds nothing exactly when no comma is followed by a match. */
  lemma CommaSearchNone(shape: Shape, s: string)
    ensures CommaSearch(shape, s).None? <==> forall j :: 0 < j <= |s| && s[j - 1] == ',' ==> MatchAt(shape, s, j).None?
  {
    var ms := CommaAttempts(shape, s);
    CommaAttemptsAt(shape, s);
    FirstFromNone(ms, 0);
  }

  /**
   * What the comma search finds follows a comma and matches there, and no
   * earlier comma is followed by a match; it finds nothing only when no
   * comma is.
   */
  lemma CommaSearchSpec(shape: Shape, s: string)
    ensures CommaSearch(shape, s).Some? ==>
              var h := CommaSearch(shape, s).value;
              && 0 < h.start <= |s| && s[h.start - 1] == ',' && MatchAt(shape, s, h.start) == Some(h)
              && forall j :: 0 < j < h.start && s[j - 1] == ',' ==> MatchAt(shape, s, j).None?
    ensures CommaSearch(shape, s).None? <==> forall j :: 0 < j <= |s| && s[j - 1] == ',' ==> MatchAt(shape, s, j).None?
  {
    CommaSearchNone(shape, s);
    if CommaSearch(shape, s).Some? {
      CommaSearchFound(shape, s);
    }
  }

  /** The patterns from index `k` on: the first one found gives the date, if it normalises to something. */
  function DateFromUrlFrom(url: string, k: nat): Option<string>
    requires k <= |UrlPatterns|
    decreases |UrlPatterns| - k
  {
    if k == |UrlPatterns| then None
    else match CommaSearch(UrlPatterns[k], url)
      case Some(h) =>
        var n := Normalize(url[h.start..h.groupEnd]);
        if n != [] then Some(n) else DateFromUrlFrom(url, k + 1)
      case None => DateFromUrlFrom(url, k + 1)
  }

  /** `extract_date_from_url`; `None` stands for a value that is not a `str`. */
  function DateFromUrl(url: Option<string>): (r: Option<string>)
    ensures url.None? || Strip(url.value) == [] ==> r.None?
  {
    if url.None? || Strip(url.value) == [] then None else DateFromUrlFrom(url.value, 0)
  }

  /** The date text a pattern's comma match captures. */
  function Captured(url: string, h: Hit): string
    requires h.start <= h.groupEnd <= |url|
  {
    url[h.start..h.groupEnd]
  }

  /** What a pattern captures always normalises to something, so the emptiness check never skips a found date. */
  lemma CapturedNormalizes(shape: Shape, url: string)
    requires CommaSearch(shape, url).Some?
    ensures var h := CommaSearch(shape, url).value;
            Normalize(Captured(url, h)) != []
  {
    var h := CommaSearch(shape, url).value;
    var g := Captured(url, h);
    assert g[h.monthStart - h.start] == url[h.monthStart];
    StripNonEmpty(g, h.monthStart - h.start);
  }

  /**
   * A non-blank URL has a date exactly when one of the two patterns occurs
   * after a comma. The two-digit-year pattern is tried first, and the date
   * is what the leftmost occurrence captures, normalised.
   */
  lemma DateFromUrlSpec(url: string)
    requires Strip(url) != []
    ensures DateFromUrl(Some(url)).Some? <==>
              CommaSearch(UrlPatterns[0], url).Some? || CommaSearch(UrlPatterns[1], url).Some?
    ensures CommaSearch(UrlPatterns[0], url).Some? ==>
              DateFromUrl(Some(url)) == Some(Normalize(Captured(url, CommaSearch(UrlPatterns[0], url).value)))
    ensures CommaSearch(UrlPatterns[0], url).None? && CommaSearch(UrlPatterns[1], url).Some? ==>
              DateFromUrl(Some(url)) == Some(Normalize(Captured(url, CommaSearch(UrlPatterns[1], url).value)))
  {
    assert DateFromUrl(Some(url)) == DateFromUrlFrom(url, 0);
    if CommaSearch(UrlPatterns[0], url).Some? {
      CapturedNormalizes(UrlPatterns[0], url);
    } else {
      assert DateFromUrlFrom(url, 0) == DateFromUrlFrom(url, 1);
      if CommaSearch(UrlPatterns[1], url).Some? {
        CapturedNormalizes(UrlPatterns[1], url);
      } else {
        assert DateFromUrlFrom(url, 1) == DateFromUrlFrom(url, 2);
      }
    }
  }
}
