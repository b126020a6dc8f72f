/**
 * The billing volume codec of app.py: `parse_volume` turns a text such as
 * "8 Go 206 Mo 633 Ko" into a byte count, `format_volume` turns a byte count back into
 * that text. Units are binary: 1 Ko = 1024 bytes, 1 Mo = 1024 Ko, 1 Go = 1024 Mo.
 */
module VolumeCodec {
  import opened Wrappers
  import opened Text

  datatype Unit = Go | Mo | Ko

  function Scale(u: Unit): (n: nat)
    ensures n == if u == Ko then 1024 else if u == Mo then 1024 * 1024 else 1024 * 1024 * 1024
  {
    match u
    case Go => 1073741824
    case Mo => 1048576
    case Ko => 1024
  }

  /** The first letter of a unit's label, in lower case; the second letter is always 'o'. */
  function Initial(u: Unit): char {
    match u
    case Go => 'g'
    case Mo => 'm'
    case Ko => 'k'
  }

  /**
   * Character `c` matches the lower-case pattern letter `l` under `re.IGNORECASE`: the
   * letter itself, its ASCII capital, and for 'k' also KELVIN SIGN (U+212A), which
   * Python's case-insensitive matching folds onto 'k'.
   */
  predicate Matches(c: char, l: char) {
    AsciiLower(c) == l || (l == 'k' && c == '\U{212A}')
  }

  /** The two characters at `j` spell the unit's label, case-insensitively. */
  predicate LabelAt(t: string, j: nat, u: Unit) {
    j + 2 <= |t| && Matches(t[j], Initial(u)) && Matches(t[j + 1], 'o')
  }

  /** The character class `[\d\.]`. */
  predicate InNumeral(c: char) {
    IsDigit(c) || c == '.'
  }

  /** End of the run of `[\d\.]` characters that starts at `i`. */
  function RunEnd(t: string, i: nat): (k: nat)
    requires i <= |t|
    ensures i <= k <= |t|
    decreases |t| - i
  {
    if i < |t| && InNumeral(t[i]) then RunEnd(t, i + 1) else i
  }

  /** The run is all `[\d\.]` and stops at the first other character. */
  lemma {:induction false} RunEndSpans(t: string, i: nat)
    requires i <= |t|
    ensures forall j | i <= j < RunEnd(t, i) :: InNumeral(t[j])
    ensures RunEnd(t, i) < |t| ==> !InNumeral(t[RunEnd(t, i)])
    decreases |t| - i
  {
    if i < |t| && InNumeral(t[i]) {
      RunEndSpans(t, i + 1);
    }
  }

  /** End of the run of `\s` characters that starts at `i`. */
  function SpaceEnd(t: string, i: nat): (k: nat)
    requires i <= |t|
    ensures i <= k <= |t|
    decreases |t| - i
  {
    if i < |t| && IsSpace(t[i]) then SpaceEnd(t, i + 1) else i
  }

  /**
   * The pattern `([\d\.]+)\s*<unit>` matches at position `i`. Backtracking cannot help:
   * a shorter group or fewer spaces leaves a digit, a point or a space where the unit's
   * first letter must stand, so the group is the whole run and the spaces are all taken.
   */
  predicate MatchAt(t: string, i: nat, u: Unit) {
    i < |t| && InNumeral(t[i]) && LabelAt(t, SpaceEnd(t, RunEnd(t, i)), u)
  }

  /** The leftmost position at or after `i` where the unit's pattern matches. */
  function SearchFrom(t: string, u: Unit, i: nat): (r: Option<nat>)
    requires i <= |t|
    ensures r.Some? ==> i <= r.value < |t| && InNumeral(t[r.value])
    decreases |t| - i
  {
    if i == |t| then None
    else if MatchAt(t, i, u) then Some(i)
    else SearchFrom(t, u, i + 1)
  }

  /** `re.search(r"([\d\.]+)\s*<unit>", t, re.IGNORECASE)` and then `m.group(1)`. */
  function Capture(t: string, u: Unit): (r: Option<string>)
    ensures r.Some? ==> |r.value| >= 1
  {
    match SearchFrom(t, u, 0)
    case None => None
    case Some(i) => RunEndSpans(t, i); Some(t[i..RunEnd(t, i)])
  }

  /** A captured group is a run of digits and points. */
  lemma CaptureIsNumeral(t: string, u: Unit)
    ensures Capture(t, u).Some? ==> forall j | 0 <= j < |Capture(t, u).value| :: InNumeral(Capture(t, u).value[j])
  {
    match SearchFrom(t, u, 0)
    case None =>
    case Some(i) => RunEndSpans(t, i);
  }

  /** Index of the first '.' in `s`. */
  function PointIndex(s: string): (r: Option<nat>)
    ensures r.Some? ==> r.value < |s| && s[r.value] == '.'
    ensures r.Some? ==> forall j | 0 <= j < r.value :: s[j] != '.'
    ensures r.None? ==> forall j | 0 <= j < |s| :: s[j] != '.'
  {
    if s == [] then None
    else if s[0] == '.' then Some(0)
    else match PointIndex(s[1..])
      case None => None
      case Some(k) => Some(k + 1)
  }

  function Pow10(n: nat): (p: nat)
    ensures p >= 1
  {
    if n == 0 then 1 else 10 * Pow10(n - 1)
  }

  /**
   * `float(s)` for a run of digits and points, as an exact decimal: at most one point and
   * at least one digit ("1", "1.", ".5", "1.5"); anything else ("." or "1.2.3") makes
   * `float` raise, which is `None` here.
   */
  function NumeralValue(s: string): (r: Option<real>)
    ensures r.Some? ==> r.value >= 0.0
  {
    match PointIndex(s)
    case None =>
      if s != [] && AllDigits(s) then Some(DigitsValue(s) as real) else None
    case Some(p) =>
      var whole, fraction := s[..p], s[p + 1..];
      if |whole| + |fraction| >= 1 && AllDigits(whole) && AllDigits(fraction)
      then Some(DecimalValue(whole, fraction))
      else None
  }

  /** The value of the decimal numeral "<whole>.<fraction>". */
  function DecimalValue(whole: string, fraction: string): (v: real)
    requires AllDigits(whole) && AllDigits(fraction)
    ensures v >= 0.0
  {
    DigitsValue(whole) as real + DigitsValue(fraction) as real / Pow10(|fraction|) as real
  }

  /** `float` raised the ValueError that `parse_volume` lets escape. */
  datatype VolumeError = MalformedNumeral(numeral: string)

  /** A unit's contribution: 0.0 when its pattern did not match, else `float(group)`. */
  function Amount(capture: Option<string>): (r: Result<real, VolumeError>)
    ensures capture.None? ==> r == Ok(0.0)
    ensures r.Ok? ==> r.value >= 0.0
    ensures r.Err? <==> capture.Some? && NumeralValue(capture.value).None?
  {
    match capture
    case None => Ok(0.0)
    case Some(s) =>
      match NumeralValue(s)
      case None => Err(MalformedNumeral(s))
      case Some(v) => Ok(v)
  }

  /**
   * The arithmetic tail of `parse_volume` once the three searches are done: the amounts are
   * converted Go first, then Mo, then Ko (the first malformed numeral raises), and the sum is
   * truncated by `int()`.
   */
  function Combine(go: Option<string>, mo: Option<string>, ko: Option<string>): (r: Result<int, VolumeError>)
    ensures r.Ok? ==> r.value >= 0
  {
    match Amount(go)
    case Err(e) => Err(e)
    case Ok(g) =>
      match Amount(mo)
      case Err(e) => Err(e)
      case Ok(m) =>
        match Amount(ko)
        case Err(e) => Err(e)
        case Ok(k) =>
          if g == 0.0 && m == 0.0 && k == 0.0 then Ok(0)
          else Ok((g * 1073741824.0 + m * 1048576.0 + k * 1024.0).Floor)
  }

  /**
   * `parse_volume`. `None` stands for both `None` and NaN; any other value is the text
   * `str(value)`. Commas become points, then the Go, Mo and Ko patterns are searched
   * independently.
   */
  function ParseVolume(value: Option<string>): (r: Result<int, VolumeError>)
    ensures value.None? ==> r == Ok(0)
    ensures r.Ok? ==> r.value >= 0
  {
    match value
    case None => Ok(0)
    case Some(s) =>
      var t := ReplaceChar(s, ',', '.');
      Combine(Capture(t, Go), Capture(t, Mo), Capture(t, Ko))
  }

  /**
   * The three numbers `format_volume` prints: whole Go by floor division, then whole Mo and
   * whole Ko of the remainders. Python's `//` and `%` by a positive divisor agree with
   * Dafny's, so this holds for negative counts too.
   */
  function Components(v: int): (r: (int, nat, nat))
    ensures r.1 < 1024 && r.2 < 1024
    ensures r.0 * 1073741824 + r.1 * 1048576 + r.2 * 1024 == v - v % 1024
    ensures v >= 0 ==> r.0 >= 0
  {
    var go := v / 1073741824;
    var remain := v % 1073741824;
    var mo := remain / 1048576;
    var rest := remain % 1048576;
    assert rest % 1024 == v % 1024;
    (go, mo, rest / 1024)
  }

  /** `format_volume`: "{go} Go {mo} Mo {ko} Ko", all three always present. */
  function FormatVolume(value: Option<int>): string {
    match value
    case None => "0 Go 0 Mo 0 Ko"
    case Some(v) =>
      var c := Components(v);
      IntToString(c.0) + " Go " + NatToString(c.1) + " Mo " + NatToString(c.2) + " Ko"
  }
}
