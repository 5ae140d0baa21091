/**
 * The date-range crawler's conversion of a user-given date into the
 * `MM/DD/YYYY` form Google's `cd_min`/`cd_max` search parameters take.
 */
module GoogleDate {
  import opened Wrappers
  import opened PyStr

  predicate IsDateSeparator(c: char) {
    c == '-' || c == '.' || c == '/'
  }

  /** `.replace('.', '-').replace('/', '-')`. */
  function Dashed(s: string): (r: string)
    ensures |r| == |s|
    ensures forall i :: 0 <= i < |s| ==> r[i] == (if IsDateSeparator(s[i]) then '-' else s[i])
  {
    seq(|s|, i requires 0 <= i < |s| => if IsDateSeparator(s[i]) then '-' else s[i])
  }

  /** The year text of the parts `[a, b, c]`, or `None` where `int(year)` raises. */
  function YearOf(parts: seq<string>): Option<string>
    requires |parts| == 3
  {
    if |parts[0]| == 4 then Some(parts[0])
    else if |parts[2]| == 4 then Some(parts[2])
    else match ParseInt(parts[0])
      case None => None
      case Some(y) => Some(if y < 50 then "20" + parts[0] else "19" + parts[0])
  }

  /** `format_date_for_google`: `None` where the source raises `ValueError`. */
  function FormatDateForGoogle(dateStr: string): Option<string> {
    var parts := Split(Dashed(Strip(dateStr)), '-');
    if |parts| != 3 then None
    else
      var year := YearOf(parts);
      var month := ParseInt(parts[1]);
      var day := if |parts[0]| != 4 && |parts[2]| == 4 then ParseInt(parts[0]) else ParseInt(parts[2]);
      if year.None? || month.None? || day.None? then None
      else Some(Pad2(month.value) + "/" + Pad2(day.value) + "/" + year.value)
  }

  /** `int(s)` on a run of decimal digits is its value. */
  lemma ParseDigits(s: string)
    requires s != [] && AllDigits(s)
    ensures ParseInt(s) == Some(NumeralValue(s))
  {
    StripUnchanged(s);
  }

  /** Splitting at the first separator. */
  lemma SplitAtFirst(a: string, rest: string, sep: char)
    requires sep !in a
    ensures Split(a + [sep] + rest, sep) == [a] + Split(rest, sep)
  {
    var s := a + [sep] + rest;
    assert s[|a|] == sep;
    var i := CharIndex(s, sep);
    assert forall j :: 0 <= j < |a| ==> s[j] == a[j];
    assert i == |a| && s[..i] == a && s[i + 1..] == rest;
  }

  /** Three separator-free parts joined by `-` split back into those parts. */
  lemma SplitThree(a: string, b: string, c: string)
    requires '-' !in a && '-' !in b && '-' !in c
    ensures Split(a + "-" + b + "-" + c, '-') == [a, b, c]
  {
    assert a + "-" + b + "-" + c == a + ['-'] + (b + ['-'] + c);
    SplitAtFirst(a, b + ['-'] + c, '-');
    SplitAtFirst(b, c, '-');
  }

  /** Three digit runs joined by one separator read as `a-b-c` once stripped and dashed. */
  lemma DashedDigits(a: string, b: string, c: string, sep: char)
    requires a != [] && c != [] && AllDigits(a) && AllDigits(b) && AllDigits(c) && IsDateSeparator(sep)
    ensures Dashed(Strip(a + [sep] + b + [sep] + c)) == a + "-" + b + "-" + c
    ensures '-' !in a && '-' !in b && '-' !in c
  {
    var s := a + [sep] + b + [sep] + c;
    assert s[0] == a[0] && s[|s| - 1] == c[|c| - 1];
    StripUnchanged(s);
    var t := a + "-" + b + "-" + c;
    forall i | 0 <= i < |s|
      ensures Dashed(s)[i] == t[i]
    {
      if i < |a| {
        assert s[i] == a[i] && t[i] == a[i];
      } else if i == |a| {
      } else if i < |a| + 1 + |b| {
        assert s[i] == b[i - |a| - 1] && t[i] == b[i - |a| - 1];
      } else if i == |a| + 1 + |b| {
      } else {
        assert s[i] == c[i - |a| - |b| - 2] && t[i] == c[i - |a| - |b| - 2];
      }
    }
    assert forall i :: 0 <= i < |a| ==> a[i] != '-';
    assert forall i :: 0 <= i < |b| ==> b[i] != '-';
    assert forall i :: 0 <= i < |c| ==> c[i] != '-';
  }

  /** `YYYY-MM-DD`, `YYYY.MM.DD` and `YYYY/MM/DD` become `MM/DD/YYYY`, the year kept verbatim. */
  lemma {:induction false} FormatYearFirst(y: string, m: string, d: string, sep: char)
    requires |y| == 4 && |m| == 2 && |d| == 2 && AllDigits(y) && AllDigits(m) && AllDigits(d)
    requires IsDateSeparator(sep)
    ensures FormatDateForGoogle(y + [sep] + m + [sep] + d) == Some(m + "/" + d + "/" + y)
  {
    DashedDigits(y, m, d, sep);
    SplitThree(y, m, d);
    ParseDigits(m);
    ParseDigits(d);
    Pad2OfTwoDigits(m);
    Pad2OfTwoDigits(d);
  }

  /** `DD-MM-YYYY` (with any of the three separators) becomes `MM/DD/YYYY`. */
  lemma {:induction false} FormatYearLast(d: string, m: string, y: string, sep: char)
    requires |y| == 4 && |m| == 2 && |d| == 2 && AllDigits(y) && AllDigits(m) && AllDigits(d)
    requires IsDateSeparator(sep)
    ensures FormatDateForGoogle(d + [sep] + m + [sep] + y) == Some(m + "/" + d + "/" + y)
  {
    DashedDigits(d, m, y, sep);
    SplitThree(d, m, y);
    ParseDigits(m);
    ParseDigits(d);
    Pad2OfTwoDigits(m);
    Pad2OfTwoDigits(d);
  }

  /** A two-digit first part with a two-digit last part is a two-digit year, pivoted at 50. */
  lemma ShortYear(y: string, m: string, d: string)
    requires |y| == 2 && |d| == 2 && AllDigits(y)
    ensures YearOf([y, m, d]) == Some((if NumeralValue(y) < 50 then "20" else "19") + y)
  {
    ParseDigits(y);
  }

  /**
   * `YY-MM-DD` (with any of the three separators) becomes `MM/DD/20YY` when
   * `YY < 50` and `MM/DD/19YY` otherwise.
   */
  lemma {:induction false} FormatShortYear(y: string, m: string, d: string, sep: char)
    requires |y| == 2 && |m| == 2 && |d| == 2 && AllDigits(y) && AllDigits(m) && AllDigits(d)
    requires IsDateSeparator(sep)
    ensures FormatDateForGoogle(y + [sep] + m + [sep] + d) ==
      Some(m + "/" + d + "/" + ((if NumeralValue(y) < 50 then "20" else "19") + y))
  {
    DashedDigits(y, m, d, sep);
    SplitThree(y, m, d);
    ShortYear(y, m, d);
    ParseDigits(m);
    ParseDigits(d);
    Pad2OfTwoDigits(m);
    Pad2OfTwoDigits(d);
  }
}
