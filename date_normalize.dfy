/**
 * `normalize_date_to_yy_mm_dd`: turn a date written in one of several
 * formats into `YY.MM.DD`, or give the stripped text back unchanged.
 */
module DateNormalize {
  import opened Wrappers
  import opened PyStr
  import opened DatePatterns

  /** A normalisation pattern and whether its first group is a four-digit year. */
  datatype NormPattern = NormPattern(shape: Shape, hasYear: bool)

  /** The seven patterns, tried in this order; the first that matches anywhere wins. */
  const NormalizePatterns: seq<NormPattern> := [
    NormPattern(Dated(4, DotOrSpaceRun, DotOrSpaceRun, Greedy), true),                       // (\d{4})[.\s]+(\d{1,2})[.\s]+(\d{1,2})
    NormPattern(Dated(4, Lit('-'), Lit('-'), Greedy), true),                                 // (\d{4})-(\d{1,2})-(\d{1,2})
    NormPattern(Dated(4, Lit('/'), Lit('/'), Greedy), true),                                 // (\d{4})/(\d{1,2})/(\d{1,2})
    NormPattern(Dated(2, Lit('.'), Lit('.'), Greedy), false),                                // (\d{2})\.(\d{1,2})\.(\d{1,2})
    NormPattern(Packed(4, true, Unterminated), true),                                        // ^(\d{4})(\d{2})(\d{2})$
    NormPattern(Packed(2, true, Unterminated), false),                                       // ^(\d{2})(\d{2})(\d{2})$
    NormPattern(Dated(4, SpacesLitSpaces('년'), SpacesLitSpaces('월'), Closed(SpacesLit('일'), Unterminated)), true)
                                                                                             // (\d{4})\s*년\s*(\d{1,2})\s*월\s*(\d{1,2})\s*일
  ]

  /** The year group is four digits exactly when the pattern says it holds a full year, and two otherwise. */
  predicate YearFits(p: NormPattern) {
    p.shape.yearLen == if p.hasYear then 4 else 2
  }

  lemma AllYearsFit()
    ensures forall k :: 0 <= k < |NormalizePatterns| ==> YearFits(NormalizePatterns[k])
  {
  }

  /** `YY.MM.DD`: two digits, a dot, two digits, a dot, two digits. */
  predicate IsCanonicalDate(r: string) {
    && |r| == 8 && r[2] == '.' && r[5] == '.'
    && IsDigit(r[0]) && IsDigit(r[1]) && IsDigit(r[3]) && IsDigit(r[4]) && IsDigit(r[6]) && IsDigit(r[7])
  }

  lemma DigitsInAll(s: string, a: nat, b: nat)
    requires a <= b <= |s| && DigitsIn(s, a, b)
    ensures AllDigits(s[a..b])
  {
  }

  /**
   * The `f"{yy}.{int(month):02d}.{int(day):02d}"` of a hit: a four-digit year
   * keeps its last two digits, month and day are zero-padded to two digits.
   */
  function Format(s: string, h: Hit, hasYear: bool): (r: string)
    requires WellPlaced(h, s) && DigitGroups(h, s)
    requires h.yearEnd - h.start == if hasYear then 4 else 2
    ensures IsCanonicalDate(r)
    ensures r[..2] == s[h.yearEnd - 2..h.yearEnd]
    ensures r[3..5] == Pad2(NumeralValue(s[h.monthStart..h.monthEnd]))
    ensures r[6..] == Pad2(NumeralValue(s[h.dayStart..h.dayEnd]))
  {
    DigitsInAll(s, h.start, h.yearEnd);
    DigitsInAll(s, h.monthStart, h.monthEnd);
    DigitsInAll(s, h.dayStart, h.dayEnd);
    var year := s[h.start..h.yearEnd];
    var yy := if hasYear && |year| == 4 then year[2..] else year;
    var mm := Pad2(NumeralValue(s[h.monthStart..h.monthEnd]));
    var dd := Pad2(NumeralValue(s[h.dayStart..h.dayEnd]));
    assert NumeralValue(s[h.monthStart..h.monthEnd]) < 100 by {
      TwoDigitsBelow100(s[h.monthStart..h.monthEnd]);
    }
    assert NumeralValue(s[h.dayStart..h.dayEnd]) < 100 by {
      TwoDigitsBelow100(s[h.dayStart..h.dayEnd]);
    }
    yy + "." + mm + "." + dd
  }

  lemma TwoDigitsBelow100(s: string)
    requires |s| <= 2 && AllDigits(s)
    ensures NumeralValue(s) < 100
  {
    if |s| > 0 {
      assert s[..|s| - 1][..0] == [];
    }
  }

  /** The patterns from index `k` on, applied to the stripped text `s`. */
  function NormalizeFrom(s: string, k: nat): (r: string)
    requires k <= |NormalizePatterns|
    ensures r == s || IsCanonicalDate(r)
    decreases |NormalizePatterns| - k
  {
    if k == |NormalizePatterns| then s
    else
      var p := NormalizePatterns[k];
      AllYearsFit();
      SearchHit(p.shape, s);
      match Search(p.shape, s)
      case Some(h) => Format(s, h, p.hasYear)
      case None => NormalizeFrom(s, k + 1)
  }

  /**
   * The first pattern from `k` on that matches anywhere in `s` decides: the
   * result is its hit, formatted. The patterns after it are never tried.
   */
  lemma {:induction false} FirstMatchWins(s: string, k: nat, j: nat, h: Hit)
    requires k <= j < |NormalizePatterns|
    requires forall i :: k <= i < j ==> Search(NormalizePatterns[i].shape, s).None?
    requires Search(NormalizePatterns[j].shape, s) == Some(h)
    ensures WellPlaced(h, s) && DigitGroups(h, s)
    ensures h.yearEnd - h.start == if NormalizePatterns[j].hasYear then 4 else 2
    ensures NormalizeFrom(s, k) == Format(s, h, NormalizePatterns[j].hasYear)
  {
    AllYearsFit();
    SearchHit(NormalizePatterns[j].shape, s);
    SkipsFrom(s, k, j);
  }

  /** When no pattern from `k` on matches, the text comes back as it is. */
  lemma {:induction false} NoMatchUnchanged(s: string, k: nat)
    requires k <= |NormalizePatterns|
    requires forall i :: k <= i < |NormalizePatterns| ==> Search(NormalizePatterns[i].shape, s).None?
    ensures NormalizeFrom(s, k) == s
  {
    SkipsFrom(s, k, |NormalizePatterns|);
  }

  /** `normalize_date_to_yy_mm_dd`: a `YY.MM.DD` date, or the stripped input when no pattern matches. */
  function Normalize(dateStr: string): (r: string)
    ensures dateStr == [] ==> r == []
    ensures r == Strip(dateStr) || IsCanonicalDate(r)
  {
    if dateStr == [] then [] else NormalizeFrom(Strip(dateStr), 0)
  }

  /**
   * The first pattern that matches the stripped input gives the result:
   * the year's last two digits (or the two-digit year), then month and day
   * zero-padded to two digits.
   */
  lemma NormalizeFirstMatch(dateStr: string, j: nat, h: Hit)
    requires j < |NormalizePatterns|
    requires forall i :: 0 <= i < j ==> Search(NormalizePatterns[i].shape, Strip(dateStr)).None?
    requires Search(NormalizePatterns[j].shape, Strip(dateStr)) == Some(h)
    ensures WellPlaced(h, Strip(dateStr)) && DigitGroups(h, Strip(dateStr))
    ensures h.yearEnd - h.start == if NormalizePatterns[j].hasYear then 4 else 2
    ensures Normalize(dateStr) == Format(Strip(dateStr), h, NormalizePatterns[j].hasYear)
  {
    FirstMatchWins(Strip(dateStr), 0, j, h);
    assert dateStr != [] by {
      assert |Strip(dateStr)| <= |dateStr|;
    }
  }

  /** When no pattern matches the stripped input, the stripped input is the result. */
  lemma NormalizeNoMatch(dateStr: string)
    requires forall i :: 0 <= i < |NormalizePatterns| ==> Search(NormalizePatterns[i].shape, Strip(dateStr)).None?
    ensures Normalize(dateStr) == Strip(dateStr)
  {
    if dateStr != [] {
      NoMatchUnchanged(Strip(dateStr), 0);
    }
  }

  lemma DigitRunIs(s: string, i: nat, n: nat)
    requires i + n <= |s| && DigitsIn(s, i, i + n)
    requires i + n == |s| || !IsDigit(s[i + n])
    ensures DigitRun(s, i) == n
  {
    RunIs(s, i, n, Digit);
  }

  /** A canonical date has no run of three digits. */
  lemma {:induction false} CanonicalShortRuns(r: string, j: nat)
    requires IsCanonicalDate(r) && j <= |r|
    ensures DigitRun(r, j) <= 2
  {
  }

  /** No four-digit-year pattern matches anywhere in a canonical date. */
  lemma {:induction false} CanonicalNoFullYear(r: string, shape: Shape)
    requires IsCanonicalDate(r) && shape.Dated? && shape.yearLen == 4
    ensures Search(shape, r).None?
  {
    forall j | 0 <= j <= |r|
      ensures MatchAt(shape, r, j).None?
    {
      CanonicalShortRuns(r, j);
    }
    SearchSpec(shape, r);
  }

  /** `(\d{2})\.(\d{1,2})\.(\d{1,2})` matches a canonical date as a whole, at position 0. */
  lemma {:induction false} CanonicalMatch(r: string)
    requires IsCanonicalDate(r)
    ensures Search(NormalizePatterns[3].shape, r) == Some(Hit(0, 2, 3, 5, 6, 8, 8, 8))
  {
    DigitRunIs(r, 0, 2);
    DigitRunIs(r, 3, 2);
    DigitRunIs(r, 6, 2);
    assert MatchAt(NormalizePatterns[3].shape, r, 0) == Some(Hit(0, 2, 3, 5, 6, 8, 8, 8));
    AttemptsAt(NormalizePatterns[3].shape, r);
    FirstFromFound(Attempts(NormalizePatterns[3].shape, r), 0);
  }

  lemma {:induction false} FormatCanonical(r: string)
    requires IsCanonicalDate(r)
    ensures Format(r, Hit(0, 2, 3, 5, 6, 8, 8, 8), false) == r
  {
    Pad2OfTwoDigits(r[3..5]);
    Pad2OfTwoDigits(r[6..8]);
    assert r == r[0..2] + "." + r[3..5] + "." + r[6..8];
  }

  /** Text with no whitespace at either end goes to the patterns as it is. */
  lemma {:induction false} NormalizeUnpadded(s: string)
    requires s != [] && !In(s[0], Space) && !In(s[|s| - 1], Space)
    ensures Normalize(s) == NormalizeFrom(s, 0)
  {
    StripUnchanged(s);
    assert Normalize(s) == NormalizeFrom(Strip(s), 0);
  }

  /** A canonical date matches none of the three full-year patterns. */
  lemma {:induction false} CanonicalNoFullYears(r: string)
    requires IsCanonicalDate(r)
    ensures forall k :: 0 <= k < 3 ==> Search(NormalizePatterns[k].shape, r).None?
  {
    forall k | 0 <= k < 3
      ensures Search(NormalizePatterns[k].shape, r).None?
    {
      CanonicalNoFullYear(r, NormalizePatterns[k].shape);
    }
  }

  lemma {:induction false} CanonicalByTwoDigitYear(r: string)
    requires IsCanonicalDate(r)
    ensures NormalizeFrom(r, 3) == r
  {
    CanonicalMatch(r);
    FormatCanonical(r);
  }

  /** Patterns from `k` to `n` that all fail to match are passed over. */
  lemma {:induction false} SkipsFrom(s: string, k: nat, n: nat)
    requires k <= n <= |NormalizePatterns|
    requires forall j :: k <= j < n ==> Search(NormalizePatterns[j].shape, s).None?
    ensures NormalizeFrom(s, k) == NormalizeFrom(s, n)
    decreases n - k
  {
    if k < n {
      SkipsFrom(s, k + 1, n);
    }
  }

  lemma {:induction false} CanonicalUnpadded(r: string)
    requires IsCanonicalDate(r)
    ensures Normalize(r) == NormalizeFrom(r, 0)
  {
    NormalizeUnpadded(r);
  }

  /** A `YY.MM.DD` date normalises to itself. */
  lemma {:induction false} NormalizeCanonical(r: string)
    requires IsCanonicalDate(r)
    ensures Normalize(r) == r
  {
    CanonicalUnpadded(r);
    CanonicalNoFullYears(r);
    SkipsFrom(r, 0, 3);
    CanonicalByTwoDigitYear(r);
  }

  /** Normalising twice gives what normalising once gave. */
  lemma {:induction false} NormalizeIdempotent(dateStr: string)
    ensures Normalize(Normalize(dateStr)) == Normalize(dateStr)
  {
    var r := Normalize(dateStr);
    if IsCanonicalDate(r) {
      NormalizeCanonical(r);
    } else if dateStr != [] {
      assert r == Strip(dateStr);
      StripIdempotent(dateStr);
    }
  }

  predicate DotsAndSpacesIn(s: string, a: nat, b: nat)
    requires a <= b <= |s|
  {
    forall j :: a <= j < b ==> In(s[j], DotOrSpace)
  }

  /** The shape of `YYYY[.\s]+M[.\s]+D` laid out in `s`, month at `ms..me`, day from `ds` to the end. */
  predicate DottedYearLayout(s: string, ms: nat, me: nat, ds: nat) {
    && 4 < ms < me <= ms + 2 && me < ds < |s| <= ds + 2
    && DigitsIn(s, 0, 4) && DigitsIn(s, ms, me) && DigitsIn(s, ds, |s|)
    && DotsAndSpacesIn(s, 4, ms) && DotsAndSpacesIn(s, me, ds)
  }

  lemma {:induction false} DottedYearDay(s: string, ms: nat, me: nat, ds: nat)
    requires DottedYearLayout(s, ms, me, ds)
    ensures MonthOnAt(DotOrSpaceRun, Greedy, s, 0, 4, ms) == Some(Hit(0, 4, ms, me, ds, |s|, |s|, |s|))
  {
    DigitRunIs(s, ms, me - ms);
    RunIs(s, me, ds - me, DotOrSpace);
    assert SepEnd(DotOrSpaceRun, s, me) == Some(ds);
    GreedyDay(s, ms, me, ds);
  }

  /** The day group of `(\d{1,2})` at the end of the text takes the rest of it. */
  lemma GreedyDay(s: string, ms: nat, me: nat, ds: nat)
    requires DottedYearLayout(s, ms, me, ds)
    ensures TailMatch(Greedy, s, 0, 4, ms, me, ds) == Some(Hit(0, 4, ms, me, ds, |s|, |s|, |s|))
  {
    DigitRunIs(s, ds, |s| - ds);
  }

  lemma {:induction false} DottedYearMatch(s: string, ms: nat, me: nat, ds: nat)
    requires DottedYearLayout(s, ms, me, ds)
    ensures Search(NormalizePatterns[0].shape, s) == Some(Hit(0, 4, ms, me, ds, |s|, |s|, |s|))
  {
    DigitRunIs(s, 0, 4);
    RunIs(s, 4, ms - 4, DotOrSpace);
    assert SepEnd(DotOrSpaceRun, s, 4) == Some(ms);
    DottedYearDay(s, ms, me, ds);
    assert MatchAt(NormalizePatterns[0].shape, s, 0) == Some(Hit(0, 4, ms, me, ds, |s|, |s|, |s|));
    AttemptsAt(NormalizePatterns[0].shape, s);
    FirstFromFound(Attempts(NormalizePatterns[0].shape, s), 0);
  }

  lemma {:induction false} DottedYearFirst(s: string, ms: nat, me: nat, ds: nat)
    requires DottedYearLayout(s, ms, me, ds)
    ensures NormalizeFrom(s, 0) == Format(s, Hit(0, 4, ms, me, ds, |s|, |s|, |s|), true)
  {
    DottedYearMatch(s, ms, me, ds);
  }

  /**
   * A date that is a four-digit year, a run of dots and whitespace, a one- or
   * two-digit month, another such run and a one- or two-digit day is
   * matched by the first pattern: the year keeps its last two digits and
   * month and day are zero-padded.
   */
  lemma {:induction false} NormalizeDottedYear(s: string, ms: nat, me: nat, ds: nat)
    requires DottedYearLayout(s, ms, me, ds)
    ensures AllDigits(s[ms..me]) && AllDigits(s[ds..])
    ensures Normalize(s) == s[2..4] + "." + Pad2(NumeralValue(s[ms..me])) + "." + Pad2(NumeralValue(s[ds..]))
  {
    assert !In(s[0], Space) && !In(s[|s| - 1], Space);
    NormalizeUnpadded(s);
    DottedYearFirst(s, ms, me, ds);
    DottedYearFormat(s, ms, me, ds);
  }

  lemma {:induction false} DottedYearFormat(s: string, ms: nat, me: nat, ds: nat)
    requires DottedYearLayout(s, ms, me, ds)
    ensures AllDigits(s[ms..me]) && AllDigits(s[ds..])
    ensures Format(s, Hit(0, 4, ms, me, ds, |s|, |s|, |s|), true)
            == s[2..4] + "." + Pad2(NumeralValue(s[ms..me])) + "." + Pad2(NumeralValue(s[ds..]))
  {
    assert s[0..4][2..] == s[2..4];
    assert s[ds..|s|] == s[ds..];
  }
}
