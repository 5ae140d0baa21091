/**
 * Pulling the publication date off the end of a news headline
 * (`extract_date_from_title`), and off a URL that ends in `,YY.MM.DD`
 * (`extract_date_from_url`).
 */
module DateExtract {
  import opened Wrappers
  import opened PyStr
  import opened DatePatterns
  import opened DateNormalize

  /** The ten headline date patterns, in the order they are tried. */
  const TitlePatterns: seq<Shape> := [
    Dated(4, LitSpaces('.'), LitSpaces('.'), Closed(Lit('.'), Standard)),  // (\d{4}\.\s*\d{1,2}\.\s*\d{1,2}\.)(?:\s|$|[.,])
    Dated(4, LitSpaces('.'), LitSpaces('.'), Closed(Lit('.'), Unterminated)), // (\d{4}\.\s*\d{1,2}\.\s*\d{1,2}\.)
    Dated(4, Lit('.'), Lit('.'), Closed(Lit('.'), Unterminated)),          // (\d{4}\.\d{1,2}\.\d{1,2}\.)
    Dated(4, LitSpaces('.'), LitSpaces('.'), Open(Standard)),              // (\d{4}\.\s*\d{1,2}\.\s*\d{1,2})(?:\s|$|[.,])
    Dated(4, Lit('.'), Lit('.'), Open(Standard)),                          // (\d{4}\.\d{1,2}\.\d{1,2})(?:\s|$|[.,])
    Dated(2, Lit('.'), Lit('.'), Open(StandardOrQuote)),                   // (\d{2}\.\d{1,2}\.\d{1,2})(?:\s|$|[.,]|"|,|$)
    Dated(4, Lit('-'), Lit('-'), Open(Standard)),                          // (\d{4}-\d{1,2}-\d{1,2})(?:\s|$|[.,])
    Dated(4, Lit('/'), Lit('/'), Open(Standard)),                          // (\d{4}/\d{1,2}/\d{1,2})(?:\s|$|[.,])
    Packed(4, false, Standard),                                            // (\d{8})(?:\s|$|[.,])
    Packed(2, false, Standard)                                             // (\d{6})(?:\s|$|[.,])
  ]

  /** Only the last 500 characters of a headline are searched. */
  const SearchWindow := 500

  /** `title[-500:]` when the title is longer than that. */
  function SearchArea(title: string): (area: string)
    ensures |area| <= SearchWindow && |area| <= |title| && area == title[|title| - |area|..]
    ensures |title| <= SearchWindow ==> area == title
  {
    if |title| > SearchWindow then title[|title| - SearchWindow..] else title
  }

  /** The last match in `area` of each pattern, in pattern order. */
  function Lasts(area: string): (ms: seq<Option<Hit>>)
    ensures |ms| == |TitlePatterns|
    ensures forall j :: 0 <= j < |ms| ==> ms[j] == LastMatch(TitlePatterns[j], area)
    ensures forall j :: 0 <= j < |ms| && ms[j].Some? ==> WellPlaced(ms[j].value, area) && DigitGroups(ms[j].value, area)
  {
    seq(|TitlePatterns|, j requires 0 <= j < |TitlePatterns| => LastMatch(TitlePatterns[j], area))
  }

  /**
   * `best_match` and `best_pos` after the matches `ms`: a match replaces
   * the best so far only when it ends strictly further right, so on a tie
   * the earlier pattern keeps it.
   */
  function BestOf(ms: seq<Option<Hit>>, area: string, offset: nat): (r: (Option<Hit>, int))
    requires forall j :: 0 <= j < |ms| && ms[j].Some? ==> WellPlaced(ms[j].value, area) && DigitGroups(ms[j].value, area)
    ensures r.0.None? <==> r.1 == -1
    ensures r.0.Some? ==> WellPlaced(r.0.value, area) && DigitGroups(r.0.value, area) && r.1 == offset + r.0.value.end
  {
    if ms == [] then (None, -1) else Better(BestOf(ms[..|ms| - 1], area, offset), ms[|ms| - 1], offset)
  }

  /** One step of the loop: `m` replaces the best so far only when it ends strictly further right. */
  function Better(prev: (Option<Hit>, int), m: Option<Hit>, offset: nat): (Option<Hit>, int)
  {
    match m
    case None => prev
    case Some(h) => if offset + h.end > prev.1 then (Some(h), offset + h.end) else prev
  }

  /** The best match and its absolute end over all ten patterns. */
  function Best(area: string, offset: nat): (r: (Option<Hit>, int))
  {
    BestOf(Lasts(area), area, offset)
  }

  /**
   * `ms[j]` is `h`, every earlier match ends strictly before `h` and no
   * later one ends after it: the rightmost end wins, the earliest on a tie.
   */
  predicate ChosenAt(ms: seq<Option<Hit>>, j: int, h: Hit) {
    0 <= j < |ms| && ms[j] == Some(h)
    && (forall i :: 0 <= i < j && ms[i].Some? ==> ms[i].value.end < h.end)
    && (forall i :: j < i < |ms| && ms[i].Some? ==> ms[i].value.end <= h.end)
  }

  /** The fold keeps the match that `ChosenAt` describes, and finds none only when there is none. */
  lemma {:induction false} BestOfSpec(ms: seq<Option<Hit>>, area: string, offset: nat)
    requires forall j :: 0 <= j < |ms| && ms[j].Some? ==> WellPlaced(ms[j].value, area) && DigitGroups(ms[j].value, area)
    ensures BestOf(ms, area, offset).0.None? <==> forall j :: 0 <= j < |ms| ==> ms[j].None?
    ensures BestOf(ms, area, offset).0.Some? ==> exists j :: ChosenAt(ms, j, BestOf(ms, area, offset).0.value)
  {
    if ms != [] {
      var n := |ms| - 1;
      var init := ms[..n];
      BestOfSpec(init, area, offset);
      var prev := BestOf(init, area, offset);
      assert forall i :: 0 <= i < n ==> ms[i] == init[i];
      if prev.0.Some? {
        var j :| ChosenAt(init, j, prev.0.value);
        if ms[n].Some? && offset + ms[n].value.end > prev.1 {
          assert ChosenAt(ms, n, ms[n].value);
        } else {
          assert ChosenAt(ms, j, prev.0.value);
        }
      } else if ms[n].Some? {
        assert ChosenAt(ms, n, ms[n].value);
      }
    }
  }

  /** The best match over all ten patterns in the search area of `title`. */
  function BestHit(title: string): (r: Option<Hit>)
    ensures r.Some? ==> WellPlaced(r.value, SearchArea(title)) && DigitGroups(r.value, SearchArea(title))
  {
    var area := SearchArea(title);
    Best(area, |title| - |area|).0
  }

  /** Whether `c` may trail a headline once its date is cut off: `[.,\s\[\]\(\)\-–—｜|]`. */
  predicate IsTitleTrail(c: char) {
    In(c, TitleTrail)
  }

  /** The headline with `date_text`'s first occurrence removed, then trimmed as the source does. */
  function CutDate(title: string, dateText: string): (cleaned: string)
    ensures cleaned == [] || (!IsTitleTrail(cleaned[|cleaned| - 1]) && !IsSpace(cleaned[0]))
  {
    var removed := Strip(ReplaceFirst(title, dateText, ""));
    var trimmed := Strip(RTrim(removed, TitleTrail));
    assert trimmed == [] || !IsTitleTrail(trimmed[|trimmed| - 1]) by {
      TrimmedTail(removed);
    }
    trimmed
  }

  /** Once trailing `TitleTrail` characters are gone, stripping whitespace cannot expose another one. */
  lemma TrimmedTail(s: string)
    ensures var t := RTrim(s, TitleTrail);
            Strip(t) == [] || !IsTitleTrail(Strip(t)[|Strip(t)| - 1])
  {
    var t := RTrim(s, TitleTrail);
    var u := t[Run(t, 0, Space)..];
    assert Strip(t) == u[..TrailStart(u, Space)];
    if u != [] {
      assert u[|u| - 1] == t[|t| - 1];
      assert !In(u[|u| - 1], Space);
      assert TrailStart(u, Space) == |u|;
    }
  }

  /**
   * `extract_date_from_title` on a `str`: the normalised date and the
   * headline without it, or no date and the headline unchanged.
   */
  function TitleDate(title: string): (r: (Option<string>, string))
  {
    var area := SearchArea(title);
    match BestHit(title)
    case None => (None, title)
    case Some(h) =>
      (Some(Normalize(area[h.start..h.groupEnd])), CutDate(title, area[h.start..h.end]))
  }

  /**
   * Pattern `j` wins in `area` with match `h`: `h` is its last match, every
   * earlier pattern's last match ends strictly before `h`, and no later
   * pattern's last match ends after it.
   */
  predicate PatternWins(area: string, j: int, h: Hit) {
    0 <= j < |TitlePatterns| && LastMatch(TitlePatterns[j], area) == Some(h)
    && (forall i :: 0 <= i < j && LastMatch(TitlePatterns[i], area).Some? ==>
          LastMatch(TitlePatterns[i], area).value.end < h.end)
    && (forall i :: j < i < |TitlePatterns| && LastMatch(TitlePatterns[i], area).Some? ==>
          LastMatch(TitlePatterns[i], area).value.end <= h.end)
  }

  /** A pattern has a last match exactly when it has a leftmost one. */
  lemma NoLastMatchNoSearch(area: string)
    ensures (forall j :: 0 <= j < |TitlePatterns| ==> LastMatch(TitlePatterns[j], area).None?)
        <==> (forall j :: 0 <= j < |TitlePatterns| ==> Search(TitlePatterns[j], area).None?)
  {
    forall j | 0 <= j < |TitlePatterns|
      ensures LastMatch(TitlePatterns[j], area).None? <==> Search(TitlePatterns[j], area).None?
    {
      LastMatchSpec(TitlePatterns[j], area);
    }
  }

  /**
   * `extract_date_from_title` finds no date exactly when none of the ten
   * patterns matches anywhere in the last 500 characters, and then the
   * headline comes back unchanged.
   */
  lemma TitleDateNone(title: string)
    ensures var area := SearchArea(title);
            TitleDate(title).0.None? <==> forall j :: 0 <= j < |TitlePatterns| ==> Search(TitlePatterns[j], area).None?
    ensures TitleDate(title).0.None? ==> TitleDate(title).1 == title
  {
    var area := SearchArea(title);
    var ms := Lasts(area);
    BestOfSpec(ms, area, |title| - |area|);
    assert BestHit(title).None? <==> forall j :: 0 <= j < |TitlePatterns| ==> LastMatch(TitlePatterns[j], area).None?;
    NoLastMatchNoSearch(area);
  }

  /** The best hit is the match of a winning pattern. */
  lemma BestHitWins(title: string)
    ensures BestHit(title).Some? ==> exists j :: PatternWins(SearchArea(title), j, BestHit(title).value)
  {
    var area := SearchArea(title);
    var ms := Lasts(area);
    if BestHit(title).Some? {
      BestOfSpec(ms, area, |title| - |area|);
        var h := BestHit(title).value;
      var j :| ChosenAt(ms, j, h);
      assert PatternWins(area, j, h);
    }
  }

  /**
   * When `extract_date_from_title` finds a date, it is the winning
   * pattern's match, normalised, and the headline loses that text.
   */
  lemma TitleDateWinner(title: string)
    ensures var area := SearchArea(title);
            TitleDate(title).0.Some? ==>
              exists j, h :: PatternWins(area, j, h)
                && TitleDate(title).0.value == Normalize(area[h.start..h.groupEnd])
                && TitleDate(title).1 == CutDate(title, area[h.start..h.end])
  {
    BestHitWins(title);
  }

  /** The body of the loop: `m` replaces the best so far when it ends strictly further right. */
  method KeepRightmost(best0: Option<Hit>, bestPos0: int, m: Option<Hit>, offset: nat) returns (best: Option<Hit>, bestPos: int)
    ensures (best, bestPos) == Better((best0, bestPos0), m, offset)
  {
    best, bestPos := best0, bestPos0;
    if m.Some? {
      var matchPos := offset + m.value.end;
      if matchPos > bestPos {
        best := m;
        bestPos := matchPos;
      }
    }
  }

  /** One more pattern folded in. */
  lemma BestOfStep(ms: seq<Option<Hit>>, area: string, offset: nat, k: nat)
    requires k < |ms|
    requires forall j :: 0 <= j < |ms| && ms[j].Some? ==> WellPlaced(ms[j].value, area) && DigitGroups(ms[j].value, area)
    ensures BestOf(ms[..k + 1], area, offset) == Better(BestOf(ms[..k], area, offset), ms[k], offset)
  {
    assert ms[..k + 1][..k] == ms[..k];
  }

  /** The loop of `extract_date_from_title` over the ten patterns, keeping the rightmost-ending match. */
  method FindBestMatch(area: string, offset: nat) returns (best: Option<Hit>, bestPos: int)
    ensures (best, bestPos) == Best(area, offset)
  {
    ghost var ms := Lasts(area);
    best := None;
    bestPos := -1;
    for k := 0 to |TitlePatterns|
      invariant (best, bestPos) == BestOf(ms[..k], area, offset)
    {
      var m := LastMatch(TitlePatterns[k], area);
      BestOfStep(ms, area, offset, k);
      best, bestPos := KeepRightmost(best, bestPos, m, offset);
    }
    assert ms[..|TitlePatterns|] == ms;
  }

  /** `extract_date_from_title` on a `str`. */
  method ExtractDateFromTitle(title: string) returns (date: Option<string>, cleaned: string)
    ensures (date, cleaned) == TitleDate(title)
  {
    var area := SearchArea(title);
    var best, _ := FindBestMatch(area, |title| - |area|);
    assert best == BestHit(title);
    if best.Some? {
      var h := best.value;
      cleaned := CutDate(title, area[h.start..h.end]);
      date := Some(Normalize(area[h.start..h.groupEnd]));
    } else {
      date := None;
      cleaned := title;
    }
  }

  /** A headline without a digit has no date, and comes back unchanged. */
  lemma NoDigitNoDate(title: string)
    requires forall i :: 0 <= i < |title| ==> !IsDigit(title[i])
    ensures TitleDate(title) == (None, title)
  {
    var area := SearchArea(title);
    forall j | 0 <= j < |TitlePatterns|
      ensures Search(TitlePatterns[j], area).None?
    {
      assert forall i :: 0 <= i < |area| ==> area[i] == title[|title| - |area| + i];
      NoDigitNoMatch(TitlePatterns[j], area);
    }
    TitleDateNone(title);
  }

  /** A date found in a headline is never empty: its text holds the month's digits. */
  lemma TitleDateNonEmpty(title: string)
    ensures TitleDate(title).0.Some? ==> TitleDate(title).0.value != []
  {
    var area := SearchArea(title);
    if BestHit(title).Some? {
      var h := BestHit(title).value;
      var g := area[h.start..h.groupEnd];
      assert g[h.monthStart - h.start] == area[h.monthStart];
      StripNonEmpty(g, h.monthStart - h.start);
    }
  }
}
