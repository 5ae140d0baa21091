/**
 * The few Python `str` operations the pipeline relies on, over `seq<char>`:
 * whitespace (`str.isspace`, regex `\s`), `strip`, `in`, `replace(old, new, 1)`,
 * `split`, slicing, `lower` on ASCII letters, `int()` and `f"{n:02d}"`.
 * Digits are the ASCII digits `0`-`9`.
 */
module PyStr {
  import opened Wrappers

  /** Python's whitespace: `str.isspace()`, and what `\s` matches in a `str` pattern. */
  predicate IsSpace(c: char) {
    c == ' ' || ('\t' <= c <= '\r') || ('\U{1c}' <= c <= '\U{1f}') || c == '\U{85}' || c == '\U{a0}'
    || c == '\U{1680}' || ('\U{2000}' <= c <= '\U{200a}') || c == '\U{2028}' || c == '\U{2029}'
    || c == '\U{202f}' || c == '\U{205f}' || c == '\U{3000}'
  }

  predicate IsDigit(c: char) {
    '0' <= c <= '9'
  }

  predicate IsAsciiLetter(c: char) {
    ('a' <= c <= 'z') || ('A' <= c <= 'Z')
  }

  /** The character classes the pipeline's patterns and `strip` calls use. */
  datatype CharClass =
    | Digit           // \d
    | Space           // \s
    | DotOrSpace      // [.\s]
    | NonSpace        // \S
    | AsciiLetter     // [a-zA-Z]
    | Backtick        // `
    | TitleTrail      // [.,\s\[\]\(\)\-–—｜|]

  predicate In(c: char, cls: CharClass) {
    match cls
    case Digit => IsDigit(c)
    case Space => IsSpace(c)
    case DotOrSpace => c == '.' || IsSpace(c)
    case NonSpace => !IsSpace(c)
    case AsciiLetter => IsAsciiLetter(c)
    case Backtick => c == '`'
    case TitleTrail =>
      c == '.' || c == ',' || IsSpace(c) || c == '[' || c == ']' || c == '(' || c == ')' || c == '-'
      || c == '\U{2013}' || c == '\U{2014}' || c == '\U{ff5c}' || c == '|'
  }

  predicate AllDigits(s: string) {
    forall i :: 0 <= i < |s| ==> IsDigit(s[i])
  }

  /** Length of the longest run of characters satisfying `p` that starts at `i`. */
  function Run(s: string, i: nat, cls: CharClass): (n: nat)
    requires i <= |s|
    ensures i + n <= |s|
    ensures forall j :: i <= j < i + n ==> In(s[j], cls)
    ensures i + n == |s| || !In(s[i + n], cls)
    decreases |s| - i
  {
    if i < |s| && In(s[i], cls) then 1 + Run(s, i + 1, cls) else 0
  }

  /** A run of exactly `n` characters of class `cls` starts at `i`. */
  lemma RunIs(s: string, i: nat, n: nat, cls: CharClass)
    requires i + n <= |s| && forall j :: i <= j < i + n ==> In(s[j], cls)
    requires i + n == |s| || !In(s[i + n], cls)
    ensures Run(s, i, cls) == n
  {
  }

  function DigitRun(s: string, i: nat): nat
    requires i <= |s|
  {
    Run(s, i, Digit)
  }

  function SpaceRun(s: string, i: nat): nat
    requires i <= |s|
  {
    Run(s, i, Space)
  }

  /** Where the run of trailing characters of class `drop` begins. */
  function TrailStart(s: string, drop: CharClass): (n: nat)
    ensures n <= |s|
    ensures forall j :: n <= j < |s| ==> In(s[j], drop)
    ensures n == 0 || !In(s[n - 1], drop)
  {
    if s != [] && In(s[|s| - 1], drop) then TrailStart(s[..|s| - 1], drop) else |s|
  }

  /** `s` without its trailing characters of class `drop` (a `[...]+$` substitution, or `rstrip`). */
  function RTrim(s: string, drop: CharClass): string {
    s[..TrailStart(s, drop)]
  }

  /** `s` without its leading characters of class `drop`. */
  function LTrim(s: string, drop: CharClass): string {
    s[Run(s, 0, drop)..]
  }

  /** `str.strip()` with no argument. */
  function Strip(s: string): (r: string)
    ensures |r| <= |s|
    ensures r == [] || (!IsSpace(r[0]) && !IsSpace(r[|r| - 1]))
  {
    RTrim(LTrim(s, Space), Space)
  }

  lemma TrimOfTrimmed(s: string, drop: CharClass)
    requires s == [] || (!In(s[0], drop) && !In(s[|s| - 1], drop))
    ensures LTrim(s, drop) == s && RTrim(s, drop) == s
  {
    assert Run(s, 0, drop) == 0;
    if s != [] {
      assert TrailStart(s, drop) == |s|;
    }
  }

  /** Stripping a string with no whitespace at either end leaves it unchanged; in particular strip is idempotent. */
  lemma StripUnchanged(s: string)
    requires s == [] || (!IsSpace(s[0]) && !IsSpace(s[|s| - 1]))
    ensures Strip(s) == s
  {
    TrimOfTrimmed(s, Space);
  }

  /** Stripping keeps a string with a non-space character non-empty. */
  lemma StripNonEmpty(s: string, i: nat)
    requires i < |s| && !IsSpace(s[i])
    ensures Strip(s) != []
  {
    var t := LTrim(s, Space);
    assert t != [] && !IsSpace(t[0]);
  }

  lemma StripIdempotent(s: string)
    ensures Strip(Strip(s)) == Strip(s)
  {
    StripUnchanged(Strip(s));
  }

  predicate OccursAt(s: string, sub: string, i: nat) {
    i + |sub| <= |s| && s[i..i + |sub|] == sub
  }

  /** The first index at or after `k` where `sub` occurs in `s` (`str.find(sub, k)`). */
  function FindFrom(s: string, sub: string, k: nat): (r: Option<nat>)
    ensures r.Some? ==> k <= r.value && OccursAt(s, sub, r.value)
    ensures r.Some? ==> forall j :: k <= j < r.value ==> !OccursAt(s, sub, j)
    ensures r.None? ==> forall j :: k <= j ==> !OccursAt(s, sub, j)
    decreases |s| - k
  {
    if k + |sub| > |s| then None
    else if OccursAt(s, sub, k) then Some(k)
    else FindFrom(s, sub, k + 1)
  }

  function Find(s: string, sub: string): Option<nat> {
    FindFrom(s, sub, 0)
  }

  /** Python's `sub in s`. */
  predicate Contains(s: string, sub: string) {
    Find(s, sub).Some?
  }

  lemma ContainsAt(s: string, sub: string, i: nat)
    requires OccursAt(s, sub, i)
    ensures Contains(s, sub)
  {
  }

  /** `s.replace(target, replacement, 1)`: the first occurrence of `target` replaced by `replacement`. */
  function ReplaceFirst(s: string, target: string, replacement: string): (r: string)
  {
    match Find(s, target)
    case Some(i) => s[..i] + replacement + s[i + |target|..]
    case None => s
  }

  /** `s[:n]` for `n >= 0`. */
  function Prefix(s: string, n: nat): (r: string)
    ensures r <= s && |r| == if n < |s| then n else |s|
  {
    if n < |s| then s[..n] else s
  }

  /** `s.split(key)[1].split('&')[0]` where `key in s`: the text after the first `key`, up to the next `key` or `&`. */
  function ParamValue(s: string, key: string): (r: string)
    requires Contains(s, key)
  {
    var i := Find(s, key).value;
    var rest := s[i + |key|..];
    var seg := match Find(rest, key) case Some(j) => rest[..j] case None => rest;
    match Find(seg, "&") case Some(j) => seg[..j] case None => seg
  }

  /** The index of the first `c` in `s`. */
  function CharIndex(s: string, c: char): (i: nat)
    requires c in s
    ensures i < |s| && s[i] == c && c !in s[..i]
  {
    if s[0] == c then 0 else 1 + CharIndex(s[1..], c)
  }

  function Join(parts: seq<string>, sep: char): string
  {
    if |parts| <= 1 then (if parts == [] then [] else parts[0])
    else parts[0] + [sep] + Join(parts[1..], sep)
  }

  /** `s.split(sep)` for a one-character separator: empty parts are kept. */
  function Split(s: string, sep: char): (parts: seq<string>)
    ensures |parts| >= 1
    ensures forall i :: 0 <= i < |parts| ==> sep !in parts[i]
    ensures Join(parts, sep) == s
    decreases |s|
  {
    if sep !in s then [s]
    else
      var i := CharIndex(s, sep);
      var rest := Split(s[i + 1..], sep);
      assert s == s[..i] + [sep] + s[i + 1..];
      [s[..i]] + rest
  }

  /** `s.split()[0] if s.split() else ''`: the first whitespace-delimited token. */
  function FirstToken(s: string): (t: string)
    ensures forall i :: 0 <= i < |t| ==> !IsSpace(t[i])
  {
    var r := LTrim(s, Space);
    r[..Run(r, 0, NonSpace)]
  }

  lemma {:induction false} FirstTokenOfJoined(a: string, b: string)
    requires a != [] && forall i :: 0 <= i < |a| ==> !IsSpace(a[i])
    ensures FirstToken(a + " " + b) == a
  {
    var s := a + " " + b;
    assert LTrim(s, Space) == s;
    assert IsSpace(s[|a|]);
  }

  function LowerChar(c: char): char {
    if 'A' <= c <= 'Z' then (c as int + 32) as char else c
  }

  /** `str.lower()` restricted to ASCII letters. */
  function Lower(s: string): (r: string)
    ensures |r| == |s| && forall i :: 0 <= i < |s| ==> r[i] == LowerChar(s[i])
  {
    seq(|s|, i requires 0 <= i < |s| => LowerChar(s[i]))
  }

  function DigitValue(c: char): nat
    requires IsDigit(c)
  {
    c as int - '0' as int
  }

  /** The value of a run of decimal digits, `_` separators skipped. */
  function NumeralValue(s: string): nat
    requires forall i :: 0 <= i < |s| ==> IsDigit(s[i]) || s[i] == '_'
  {
    if s == [] then 0
    else if s[|s| - 1] == '_' then NumeralValue(s[..|s| - 1])
    else 10 * NumeralValue(s[..|s| - 1]) + DigitValue(s[|s| - 1])
  }

  /** The body `int()` accepts after the sign: digits, single `_` only between two digits. */
  predicate WellFormedNumeral(s: string) {
    && s != []
    && IsDigit(s[0]) && IsDigit(s[|s| - 1])
    && (forall i :: 0 <= i < |s| ==> IsDigit(s[i]) || s[i] == '_')
    && (forall i :: 0 <= i < |s| - 1 ==> s[i] == '_' ==> s[i + 1] != '_')
  }

  /** Python's `int(s)` on a `str`: `None` where it raises `ValueError`. */
  function ParseInt(s: string): (r: Option<int>)
    ensures r.Some? ==> Strip(s) != []
  {
    var t := Strip(s);
    if t == [] then None
    else if t[0] == '+' || t[0] == '-' then
      if WellFormedNumeral(t[1..]) then
        Some(if t[0] == '-' then -(NumeralValue(t[1..]) as int) else NumeralValue(t[1..]))
      else None
    else if WellFormedNumeral(t) then Some(NumeralValue(t))
    else None
  }

  function DigitChar(d: nat): (c: char)
    requires d < 10
    ensures IsDigit(c) && DigitValue(c) == d
  {
    ('0' as int + d) as char
  }

  /** `str(n)` for `n >= 0`. */
  function NatStr(n: nat): (s: string)
    ensures s != [] && AllDigits(s)
    ensures NumeralValue(s) == n
    ensures n < 10 <==> |s| == 1
    ensures 10 <= n < 100 ==> |s| == 2
  {
    if n < 10 then [DigitChar(n)]
    else
      var s := NatStr(n / 10) + [DigitChar(n % 10)];
      assert s[..|s| - 1] == NatStr(n / 10);
      s
  }

  /** `f"{n:02d}"`: zero-padded to width 2, a minus sign counting towards the width. */
  function Pad2(n: int): (s: string)
    ensures 0 <= n < 100 ==> |s| == 2 && AllDigits(s) && NumeralValue(s) == n
  {
    if n < 0 then "-" + NatStr(-n)
    else if n < 10 then "0" + NatStr(n)
    else NatStr(n)
  }

  /** A two-digit numeral is its own `f"{int(s):02d}"`. */
  lemma {:induction false} Pad2OfTwoDigits(s: string)
    requires |s| == 2 && AllDigits(s)
    ensures Pad2(NumeralValue(s)) == s
  {
    assert s[..1][..0] == [];
    assert NumeralValue(s[..1]) == DigitValue(s[0]);
    var n := NumeralValue(s);
    assert n == 10 * DigitValue(s[0]) + DigitValue(s[1]);
    if n < 10 {
      assert DigitValue(s[0]) == 0;
    } else {
      assert NatStr(n / 10) == [DigitChar(n / 10)];
    }
  }
}
