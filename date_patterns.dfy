/**
 * The regular expressions the pipeline uses to find dates, as deterministic
 * matchers. Every date pattern is a year group of digits, two separators
 * each followed by a one- or two-digit group, and an optional closing
 * separator and terminator. No separator can begin with a digit, so once a
 * digit group's length is bounded by what follows it, the backtracking
 * matcher can only succeed one way. The matcher below is that one way.
 */
module DatePatterns {
  import opened Wrappers
  import opened PyStr

  /** What stands between two digit groups, or after the last one. */
  datatype Sep =
    | Lit(c: char)              // c
    | LitSpaces(c: char)        // c\s*
    | DotOrSpaceRun             // [.\s]+
    | SpacesLitSpaces(c: char)  // \s*c\s*
    | SpacesLit(c: char)        // \s*c

  /** The non-capturing group that must follow a match. */
  datatype Terminator =
    | Unterminated              // nothing
    | Standard                  // (?:\s|$|[.,])
    | StandardOrQuote           // (?:\s|$|[.,]|"|,|$)
    | UrlEnd                    // (?:$|[/?#])

  /** How the day group ends. */
  datatype Tail =
    | Greedy                              // \d{1,2} and nothing after it
    | Closed(close: Sep, term: Terminator) // \d{1,2}, then close, then term
    | Open(term: Terminator)              // \d{1,2}, then term

  datatype Shape =
      /** (\d{yearLen}) first (\d{1,2}) second (\d{1,2}) tail */
    | Dated(yearLen: nat, first: Sep, second: Sep, tail: Tail)
      /** (\d{yearLen})(\d{2})(\d{2}) then term; with `whole`, anchored by ^ and $ */
    | Packed(yearLen: nat, whole: bool, term: Terminator)

  /**
   * One match: the year, month and day groups, the end of the capturing
   * group (the date text) and the end of the whole match.
   */
  datatype Hit = Hit(start: nat, yearEnd: nat, monthStart: nat, monthEnd: nat,
                     dayStart: nat, dayEnd: nat, groupEnd: nat, end: nat)

  /** A hit lies inside `s`, in order; month and day have one or two characters. */
  predicate WellPlaced(h: Hit, s: string) {
    && h.start <= h.yearEnd <= h.monthStart < h.monthEnd <= h.dayStart < h.dayEnd <= h.groupEnd <= h.end <= |s|
    && h.start < h.end
    && h.monthEnd - h.monthStart <= 2 && h.dayEnd - h.dayStart <= 2
  }

  /** The year, month and day groups of a hit are digits. */
  predicate DigitGroups(h: Hit, s: string)
    requires WellPlaced(h, s)
  {
    DigitsIn(s, h.start, h.yearEnd) && DigitsIn(s, h.monthStart, h.monthEnd) && DigitsIn(s, h.dayStart, h.dayEnd)
  }

  predicate DigitsIn(s: string, a: nat, b: nat)
    requires a <= b <= |s|
  {
    forall j :: a <= j < b ==> IsDigit(s[j])
  }

  function YearLen(shape: Shape): nat {
    shape.yearLen
  }

  /** Where `sep` ends when it is matched at `p`, if it matches there. */
  function SepEnd(sep: Sep, s: string, p: nat): (r: Option<nat>)
    requires p <= |s|
    ensures r.Some? ==> p < r.value <= |s|
  {
    match sep
    case Lit(c) => if p < |s| && s[p] == c then Some(p + 1) else None
    case LitSpaces(c) => if p < |s| && s[p] == c then Some(p + 1 + SpaceRun(s, p + 1)) else None
    case DotOrSpaceRun =>
      var n := Run(s, p, DotOrSpace);
      if n > 0 then Some(p + n) else None
    case SpacesLitSpaces(c) =>
      var q := p + SpaceRun(s, p);
      if q < |s| && s[q] == c then Some(q + 1 + SpaceRun(s, q + 1)) else None
    case SpacesLit(c) =>
      var q := p + SpaceRun(s, p);
      if q < |s| && s[q] == c then Some(q + 1) else None
  }

  /** Where `term` ends when it is matched at `p`; `$` also matches before a final newline. */
  function TermEnd(term: Terminator, s: string, p: nat): (r: Option<nat>)
    requires p <= |s|
    ensures r.Some? ==> p <= r.value <= |s|
  {
    match term
    case Unterminated => Some(p)
    case Standard =>
      if p == |s| then Some(p)
      else if IsSpace(s[p]) || s[p] == '.' || s[p] == ',' then Some(p + 1)
      else None
    case StandardOrQuote =>
      if p == |s| then Some(p)
      else if IsSpace(s[p]) || s[p] == '.' || s[p] == ',' || s[p] == '"' then Some(p + 1)
      else None
    case UrlEnd =>
      if p == |s| || (p == |s| - 1 && s[p] == '\n') then Some(p)
      else if s[p] == '/' || s[p] == '?' || s[p] == '#' then Some(p + 1)
      else None
  }

  /** The day group starting at `ds`, `dr` digits long, followed by `tail`. */
  function TailMatch(tail: Tail, s: string, start: nat, yearEnd: nat, ms: nat, me: nat, ds: nat): (r: Option<Hit>)
    requires start <= yearEnd <= ms < me <= ds < |s| && start < me && me - ms <= 2
    requires DigitsIn(s, start, yearEnd) && DigitsIn(s, ms, me)
    requires IsDigit(s[ds])
    ensures r.Some? ==> WellPlaced(r.value, s) && DigitGroups(r.value, s) && r.value.start == start && r.value.dayStart == ds
    ensures r.Some? ==> r.value.yearEnd == yearEnd && r.value.monthStart == ms && r.value.monthEnd == me
    ensures r.Some? ==> r.value.dayEnd == ds + if DigitRun(s, ds) < 2 then DigitRun(s, ds) else 2
  {
    var dr := DigitRun(s, ds);
    match tail
    case Greedy =>
      var de := ds + if dr < 2 then dr else 2;
      Some(Hit(start, yearEnd, ms, me, ds, de, de, de))
    case Open(term) =>
      if dr > 2 then None
      else (match TermEnd(term, s, ds + dr)
        case None => None
        case Some(e) => Some(Hit(start, yearEnd, ms, me, ds, ds + dr, ds + dr, e)))
    case Closed(close, term) =>
      if dr > 2 then None
      else (match SepEnd(close, s, ds + dr)
        case None => None
        case Some(g) =>
          (match TermEnd(term, s, g)
           case None => None
           case Some(e) => Some(Hit(start, yearEnd, ms, me, ds, ds + dr, g, e))))
  }

  /** `(\d{y})(\d{2})(\d{2})` then `term` at `i`; with `whole`, also `^` before and `$` after. */
  function PackedAt(y: nat, whole: bool, term: Terminator, s: string, i: nat): (r: Option<Hit>)
    requires i <= |s|
    ensures r.Some? ==> WellPlaced(r.value, s) && DigitGroups(r.value, s) && r.value.start == i && r.value.yearEnd == i + y
  {
    var n := y + 4;
    if (whole && i != 0) || DigitRun(s, i) < n then None
    else match TermEnd(term, s, i + n)
      case None => None
      case Some(e) =>
        if whole && e != |s| then None
        else Some(Hit(i, i + y, i + y, i + y + 2, i + y + 2, i + n, i + n, e))
  }

  /** The month group at `ms` and what follows it, for a match that started at `i`. */
  function MonthOnAt(second: Sep, tail: Tail, s: string, i: nat, yearEnd: nat, ms: nat): (r: Option<Hit>)
    requires i <= yearEnd < ms <= |s| && DigitsIn(s, i, yearEnd)
    ensures r.Some? ==> WellPlaced(r.value, s) && DigitGroups(r.value, s) && r.value.start == i && r.value.yearEnd == yearEnd
  {
    var mr := DigitRun(s, ms);
    if mr < 1 || mr > 2 then None
    else match SepEnd(second, s, ms + mr)
      case None => None
      case Some(ds) =>
        if ds == |s| || !IsDigit(s[ds]) then None
        else TailMatch(tail, s, i, yearEnd, ms, ms + mr, ds)
  }

  /** `(\d{y})`, `first`, then the month group and the rest, at `i`. */
  function DatedAt(y: nat, first: Sep, second: Sep, tail: Tail, s: string, i: nat): (r: Option<Hit>)
    requires i <= |s|
    ensures r.Some? ==> WellPlaced(r.value, s) && DigitGroups(r.value, s) && r.value.start == i && r.value.yearEnd == i + y
  {
    if DigitRun(s, i) < y then None
    else match SepEnd(first, s, i + y)
      case None => None
      case Some(ms) => MonthOnAt(second, tail, s, i, i + y, ms)
  }

  /** `shape` matched at exactly position `i` (Python's `re.match` at `i`). */
  function MatchAt(shape: Shape, s: string, i: nat): (r: Option<Hit>)
    requires i <= |s|
    ensures r.Some? ==> WellPlaced(r.value, s) && DigitGroups(r.value, s) && r.value.start == i
    ensures r.Some? ==> r.value.yearEnd == i + YearLen(shape)
  {
    match shape
    case Packed(y, whole, term) => PackedAt(y, whole, term, s, i)
    case Dated(y, first, second, tail) => DatedAt(y, first, second, tail, s, i)
  }

  /**
   * Whether a hit found at an index starts there and ends inside the text:
   * the shape of `Attempts`, which the search functions below rely on.
   */
  predicate Aligned(ms: seq<Option<Hit>>) {
    forall i :: 0 <= i < |ms| && ms[i].Some? ==> ms[i].value.start == i < ms[i].value.end < |ms|
  }

  /** The match attempt of `shape` at every position of `s`, end of text included. */
  function Attempts(shape: Shape, s: string): (ms: seq<Option<Hit>>)
    ensures |ms| == |s| + 1 && Aligned(ms)
    ensures forall i :: 0 <= i < |ms| && ms[i].Some? ==> WellPlaced(ms[i].value, s) && DigitGroups(ms[i].value, s)
  {
    seq(|s| + 1, i requires 0 <= i <= |s| => MatchAt(shape, s, i))
  }

  lemma AttemptsAt(shape: Shape, s: string)
    ensures forall i :: 0 <= i <= |s| ==> Attempts(shape, s)[i] == MatchAt(shape, s, i)
  {
  }

  /** The first hit at index `k` or later. */
  function FirstFrom(ms: seq<Option<Hit>>, k: nat): (r: Option<Hit>)
    requires k <= |ms|
    decreases |ms| - k
  {
    if k == |ms| then None
    else if ms[k].Some? then ms[k]
    else FirstFrom(ms, k + 1)
  }

  /** What `FirstFrom` finds is the attempt at its start, and no earlier attempt from `k` on succeeded. */
  lemma {:induction false} FirstFromFound(ms: seq<Option<Hit>>, k: nat)
    requires k <= |ms| && Aligned(ms) && FirstFrom(ms, k).Some?
    ensures k <= FirstFrom(ms, k).value.start < |ms| && ms[FirstFrom(ms, k).value.start] == FirstFrom(ms, k)
    ensures forall j :: k <= j < FirstFrom(ms, k).value.start ==> ms[j].None?
    decreases |ms| - k
  {
    if ms[k].None? {
      FirstFromFound(ms, k + 1);
    }
  }

  /** `FirstFrom` finds nothing exactly when every attempt from `k` on failed. */
  lemma {:induction false} FirstFromNone(ms: seq<Option<Hit>>, k: nat)
    requires k <= |ms|
    ensures FirstFrom(ms, k).None? <==> forall j :: k <= j < |ms| ==> ms[j].None?
    decreases |ms| - k
  {
    if k < |ms| {
      FirstFromNone(ms, k + 1);
    }
  }

  /** `re.search(shape, s[k:])` in terms of positions of `s`: the leftmost match starting at or after `k`. */
  function SearchFrom(shape: Shape, s: string, k: nat): (r: Option<Hit>)
    requires k <= |s|
  {
    FirstFrom(Attempts(shape, s), k)
  }

  function Search(shape: Shape, s: string): Option<Hit> {
    SearchFrom(shape, s, 0)
  }

  /** What `re.search` finds is a well-placed match whose year group has the pattern's length. */
  lemma SearchHit(shape: Shape, s: string)
    ensures Search(shape, s).Some? ==>
              var h := Search(shape, s).value;
              WellPlaced(h, s) && DigitGroups(h, s) && h.yearEnd - h.start == YearLen(shape)
  {
    SearchSpec(shape, s);
  }

  /** What `re.search` finds is a match, no match starts before it, and it finds nothing only when nothing matches. */
  lemma SearchSpec(shape: Shape, s: string)
    ensures Search(shape, s).Some? ==>
              var h := Search(shape, s).value;
              && h.start <= |s| && MatchAt(shape, s, h.start) == Some(h)
              && forall j :: 0 <= j < h.start ==> MatchAt(shape, s, j).None?
    ensures Search(shape, s).None? <==> forall j :: 0 <= j <= |s| ==> MatchAt(shape, s, j).None?
  {
    var ms := Attempts(shape, s);
    AttemptsAt(shape, s);
    FirstFromNone(ms, 0);
    if Search(shape, s).Some? {
      FirstFromFound(ms, 0);
    }
  }

  /**
   * The last of the non-overlapping hits `re.finditer` yields from `k` on
   * (each search resuming where the previous match ended), or `last` when
   * there is none.
   */
  function LastFrom(ms: seq<Option<Hit>>, k: nat, last: Option<Hit>): (r: Option<Hit>)
    requires k < |ms| && Aligned(ms)
    ensures r.Some? ==> r == last || (k <= r.value.start < |ms| && ms[r.value.start] == r)
    ensures r.None? <==> last.None? && FirstFrom(ms, k).None?
    ensures last.Some? && last.value.start < k ==> (r == last <==> FirstFrom(ms, k).None?)
    decreases |ms| - k
  {
    match FirstFrom(ms, k)
    case None => last
    case Some(h) =>
      FirstFromFound(ms, k);
      LastFrom(ms, h.end, Some(h))
  }

  /** No hit starts at or after the end of the last one `LastFrom` returns. */
  lemma {:induction false} LastFromIsLast(ms: seq<Option<Hit>>, k: nat, last: Option<Hit>)
    requires k < |ms| && Aligned(ms)
    requires LastFrom(ms, k, last).Some? && LastFrom(ms, k, last) != last
    ensures forall j :: LastFrom(ms, k, last).value.end <= j < |ms| ==> ms[j].None?
    decreases |ms| - k
  {
    var h := FirstFrom(ms, k).value;
    FirstFromFound(ms, k);
    if LastFrom(ms, h.end, Some(h)) != Some(h) {
      LastFromIsLast(ms, h.end, Some(h));
    } else {
      FirstFromNone(ms, h.end);
    }
  }

  /** `list(re.finditer(shape, s))[-1]`, when there is a match at all. */
  function LastMatch(shape: Shape, s: string): (r: Option<Hit>)
    ensures r.Some? ==> WellPlaced(r.value, s) && DigitGroups(r.value, s)
  {
    LastFrom(Attempts(shape, s), 0, None)
  }

  /**
   * `re.finditer` has a last match exactly when `re.search` finds a first
   * one; it is a real match, and no match starts at or after its end.
   */
  lemma LastMatchSpec(shape: Shape, s: string)
    ensures LastMatch(shape, s).Some? <==> Search(shape, s).Some?
    ensures LastMatch(shape, s).Some? ==>
              var h := LastMatch(shape, s).value;
              && h.start <= |s| && MatchAt(shape, s, h.start) == Some(h)
              && forall j :: h.end <= j <= |s| ==> MatchAt(shape, s, j).None?
  {
    var ms := Attempts(shape, s);
    AttemptsAt(shape, s);
    if LastMatch(shape, s).Some? {
      LastFromIsLast(ms, 0, None);
    }
  }

  /** Every match holds a digit (the first of its month group), so text without digits has no match. */
  lemma NoDigitNoMatch(shape: Shape, s: string)
    requires forall i :: 0 <= i < |s| ==> !IsDigit(s[i])
    ensures Search(shape, s).None?
  {
    SearchSpec(shape, s);
  }
}
