/**
 * What `parse_volume` and `format_volume` promise, proved about the model: the meaning of a
 * text made of "<number> <unit>" phrases, the independence and case-insensitivity of the
 * three searches, the error on malformed numbers, and the byte -> text -> byte round trip.
 */
module VolumeCodecLemmas {
  import opened Wrappers
  import opened Text
  import opened VolumeCodec

  /**
   * One phrase of a volume text: free text that holds no digit, point or comma, then a
   * numeral, then white space, then a unit label in any letter case ("Go", "GO", "mo", ...).
   */
  datatype Phrase = Phrase(lead: string, numeral: string, gap: string, spelling: string, unit: Unit)

  predicate Plain(s: string) {
    forall i | 0 <= i < |s| :: !InNumeral(s[i]) && s[i] != ','
  }

  predicate WellFormed(p: Phrase) {
    && Plain(p.lead)
    && |p.numeral| >= 1 && (forall i | 0 <= i < |p.numeral| :: InNumeral(p.numeral[i]))
    && (forall i | 0 <= i < |p.gap| :: IsSpace(p.gap[i]))
    && |p.spelling| == 2 && Matches(p.spelling[0], Initial(p.unit)) && Matches(p.spelling[1], 'o')
  }

  function PhraseText(p: Phrase): string {
    p.lead + p.numeral + p.gap + p.spelling
  }

  /** The phrases one after the other, then a trailer of plain text. */
  function Render(ps: seq<Phrase>, trailer: string): string {
    if ps == [] then trailer else PhraseText(ps[0]) + Render(ps[1..], trailer)
  }

  /** The numeral of the first phrase that carries unit `u`. */
  function FirstNumeral(ps: seq<Phrase>, u: Unit): Option<string> {
    if ps == [] then None
    else if ps[0].unit == u then Some(ps[0].numeral)
    else FirstNumeral(ps[1..], u)
  }

  // ---------------------------------------------------------------------------------------
  // Searching after a prefix: runs, spaces and matches only look forward.

  lemma {:induction false} RunEndShift(p: string, q: string, j: nat)
    requires j <= |q|
    ensures RunEnd(p + q, |p| + j) == |p| + RunEnd(q, j)
    decreases |q| - j
  {
    if j < |q| && InNumeral(q[j]) {
      assert (p + q)[|p| + j] == q[j];
      RunEndShift(p, q, j + 1);
    } else if j < |q| {
      assert (p + q)[|p| + j] == q[j];
    }
  }

  lemma {:induction false} SpaceEndShift(p: string, q: string, j: nat)
    requires j <= |q|
    ensures SpaceEnd(p + q, |p| + j) == |p| + SpaceEnd(q, j)
    decreases |q| - j
  {
    if j < |q| && IsSpace(q[j]) {
      assert (p + q)[|p| + j] == q[j];
      SpaceEndShift(p, q, j + 1);
    } else if j < |q| {
      assert (p + q)[|p| + j] == q[j];
    }
  }

  lemma MatchAtShift(p: string, q: string, j: nat, u: Unit)
    requires j <= |q|
    ensures MatchAt(p + q, |p| + j, u) == MatchAt(q, j, u)
  {
    if j < |q| {
      assert (p + q)[|p| + j] == q[j];
      RunEndShift(p, q, j);
      var k := RunEnd(q, j);
      SpaceEndShift(p, q, k);
      var s := SpaceEnd(q, k);
      if s + 2 <= |q| {
        assert (p + q)[|p| + s] == q[s] && (p + q)[|p| + s + 1] == q[s + 1];
      }
    }
  }

  function Offset(r: Option<nat>, n: nat): Option<nat> {
    match r
    case None => None
    case Some(i) => Some(n + i)
  }

  lemma SearchShift(p: string, q: string, u: Unit, j: nat)
    requires j <= |q|
    ensures SearchFrom(p + q, u, |p| + j) == Offset(SearchFrom(q, u, j), |p|)
  {
    forall i | j <= i < |q| ensures MatchAt(p + q, |p| + i, u) == MatchAt(q, i, u) {
      MatchAtShift(p, q, i, u);
    }
    SearchAligned(p + q, q, |p|, u, j);
  }

  /** Two texts whose matches line up at offset `d` have searches that line up too. */
  lemma {:induction false} SearchAligned(t: string, q: string, d: nat, u: Unit, j: nat)
    requires |t| == d + |q| && j <= |q|
    requires forall i | j <= i < |q| :: MatchAt(t, d + i, u) == MatchAt(q, i, u)
    ensures SearchFrom(t, u, d + j) == Offset(SearchFrom(q, u, j), d)
    decreases |q| - j
  {
    if j < |q| && !MatchAt(q, j, u) {
      SearchAligned(t, q, d, u, j + 1);
    }
  }

  lemma {:induction false} SkipNoMatch(t: string, u: Unit, a: nat, b: nat)
    requires a <= b <= |t|
    requires forall j | a <= j < b :: !MatchAt(t, j, u)
    ensures SearchFrom(t, u, a) == SearchFrom(t, u, b)
    decreases b - a
  {
    if a < b {
      SkipNoMatch(t, u, a + 1, b);
    }
  }

  /** A prefix in which the pattern never matches does not change the capture. */
  lemma CaptureAfter(p: string, q: string, u: Unit)
    requires forall j | 0 <= j < |p| :: !MatchAt(p + q, j, u)
    ensures Capture(p + q, u) == Capture(q, u)
  {
    var t := p + q;
    assert SearchFrom(t, u, 0) == SearchFrom(t, u, |p|) by {
      SkipNoMatch(t, u, 0, |p|);
    }
    var r := SearchFrom(q, u, 0);
    assert SearchFrom(t, u, |p|) == Offset(r, |p|) by {
      SearchShift(p, q, u, 0);
    }
    if r.Some? {
      var i := r.value;
      RunEndShift(p, q, i);
      assert t[|p| + i..|p| + RunEnd(q, i)] == q[i..RunEnd(q, i)];
    }
  }

  // ---------------------------------------------------------------------------------------
  // Inside one phrase.

  lemma {:induction false} RunEndIs(t: string, i: nat, k: nat)
    requires i <= k <= |t|
    requires forall j | i <= j < k :: InNumeral(t[j])
    requires k < |t| ==> !InNumeral(t[k])
    ensures RunEnd(t, i) == k
    decreases k - i
  {
    if i < k {
      RunEndIs(t, i + 1, k);
    }
  }

  lemma {:induction false} SpaceEndIs(t: string, i: nat, k: nat)
    requires i <= k <= |t|
    requires forall j | i <= j < k :: IsSpace(t[j])
    requires k < |t| ==> !IsSpace(t[k])
    ensures SpaceEnd(t, i) == k
    decreases k - i
  {
    if i < k {
      SpaceEndIs(t, i + 1, k);
    }
  }

  /** Letters of unit labels are neither numeral characters nor white space. */
  lemma LabelLetter(c: char, l: char)
    requires l in "gmko" && Matches(c, l)
    ensures !InNumeral(c) && !IsSpace(c)
  {
  }

  /** A character that matches one unit's initial matches no other unit's initial. */
  lemma InitialDetermines(c: char, u: Unit, v: Unit)
    requires Matches(c, Initial(u)) && Matches(c, Initial(v))
    ensures u == v
  {
  }

  /**
   * Within a phrase, the unit's pattern matches exactly at the positions of the numeral,
   * and only when the phrase carries that unit.
   */
  lemma PhraseMatchAt(ph: Phrase, rest: string, u: Unit, i: nat)
    requires WellFormed(ph) && i < |PhraseText(ph)|
    ensures MatchAt(PhraseText(ph) + rest, i, u) <==>
      (|ph.lead| <= i < |ph.lead| + |ph.numeral| && ph.unit == u)
  {
    var t := PhraseText(ph) + rest;
    var a := |ph.lead|;
    var b := a + |ph.numeral|;
    var c := b + |ph.gap|;
    assert forall j | 0 <= j < a :: t[j] == ph.lead[j];
    assert forall j | a <= j < b :: t[j] == ph.numeral[j - a];
    assert forall j | b <= j < c :: t[j] == ph.gap[j - b];
    assert t[c] == ph.spelling[0] && t[c + 1] == ph.spelling[1];
    SegmentMatchAt(t, a, b, c, ph.unit, u, i);
  }

  /**
   * A text laid out as plain text [0, a), numeral characters [a, b), white space [b, c) and
   * a unit label at c: the pattern of `u` matches inside it only on the numeral, and only
   * when the label is u's.
   */
  lemma SegmentMatchAt(t: string, a: nat, b: nat, c: nat, l: Unit, u: Unit, i: nat)
    requires a < b <= c && c + 2 <= |t| && i < c + 2
    requires forall j | 0 <= j < a :: !InNumeral(t[j])
    requires forall j | a <= j < b :: InNumeral(t[j])
    requires forall j | b <= j < c :: IsSpace(t[j])
    requires Matches(t[c], Initial(l)) && Matches(t[c + 1], 'o')
    ensures MatchAt(t, i, u) <==> (a <= i < b && l == u)
  {
    LabelLetter(t[c], Initial(l));
    LabelLetter(t[c + 1], 'o');
    if a <= i < b {
      RunEndIs(t, i, b);
      SpaceEndIs(t, b, c);
      if LabelAt(t, c, u) {
        InitialDetermines(t[c], l, u);
      }
    } else if b <= i < c {
      assert IsSpace(t[i]);
    }
  }

  /** Searching a phrase followed by more text. */
  lemma PhraseCapture(ph: Phrase, rest: string, u: Unit)
    requires WellFormed(ph)
    ensures Capture(PhraseText(ph) + rest, u) ==
      if ph.unit == u then Some(ph.numeral) else Capture(rest, u)
  {
    if ph.unit == u {
      OwnPhraseCapture(ph, rest);
    } else {
      var p := PhraseText(ph);
      forall j | 0 <= j < |p| ensures !MatchAt(p + rest, j, u) {
        PhraseMatchAt(ph, rest, u, j);
      }
      CaptureAfter(p, rest, u);
    }
  }

  /** The search for a phrase's own unit stops at its numeral and captures all of it. */
  lemma OwnPhraseCapture(ph: Phrase, rest: string)
    requires WellFormed(ph)
    ensures Capture(PhraseText(ph) + rest, ph.unit) == Some(ph.numeral)
  {
    var t := PhraseText(ph) + rest;
    var u := ph.unit;
    var a := |ph.lead|;
    var b := a + |ph.numeral|;
    forall j | 0 <= j < a ensures !MatchAt(t, j, u) {
      PhraseMatchAt(ph, rest, u, j);
    }
    PhraseMatchAt(ph, rest, u, a);
    assert SearchFrom(t, u, 0) == Some(a) by {
      SkipNoMatch(t, u, 0, a);
    }
    NumeralRun(ph, rest);
  }

  /** In a phrase, the run of `[\d\.]` that starts at the numeral is exactly the numeral. */
  lemma NumeralRun(ph: Phrase, rest: string)
    requires WellFormed(ph)
    ensures RunEnd(PhraseText(ph) + rest, |ph.lead|) == |ph.lead| + |ph.numeral|
    ensures (PhraseText(ph) + rest)[|ph.lead|..|ph.lead| + |ph.numeral|] == ph.numeral
  {
    var t := PhraseText(ph) + rest;
    var a := |ph.lead|;
    var b := a + |ph.numeral|;
    assert forall j | a <= j < b :: t[j] == ph.numeral[j - a];
    if b < |t| {
      assert t[b] == (ph.gap + ph.spelling)[0];
      LabelLetter(ph.spelling[0], Initial(ph.unit));
    }
    RunEndIs(t, a, b);
  }

  lemma {:induction false} PlainHasNoMatch(t: string, u: Unit, i: nat)
    requires Plain(t) && i <= |t|
    ensures SearchFrom(t, u, i) == None
    decreases |t| - i
  {
    if i < |t| {
      PlainHasNoMatch(t, u, i + 1);
    }
  }

  /** Each unit's search finds the numeral of the first phrase that carries that unit. */
  lemma {:induction false} CaptureRender(ps: seq<Phrase>, trailer: string, u: Unit)
    requires forall i | 0 <= i < |ps| :: WellFormed(ps[i])
    requires Plain(trailer)
    ensures Capture(Render(ps, trailer), u) == FirstNumeral(ps, u)
  {
    if ps == [] {
      PlainHasNoMatch(trailer, u, 0);
    } else {
      PhraseCapture(ps[0], Render(ps[1..], trailer), u);
      CaptureRender(ps[1..], trailer, u);
    }
  }

  // ---------------------------------------------------------------------------------------
  // What a volume text means.

  lemma PhraseHasNoComma(ph: Phrase, i: nat)
    requires WellFormed(ph) && i < |PhraseText(ph)|
    ensures PhraseText(ph)[i] != ','
  {
    var t := PhraseText(ph);
    var a := |ph.lead|;
    var b := a + |ph.numeral|;
    var c := b + |ph.gap|;
    if i < a {
      assert t[i] == ph.lead[i];
    } else if i < b {
      assert t[i] == ph.numeral[i - a];
    } else if i < c {
      assert t[i] == ph.gap[i - b];
    } else {
      assert t[i] == ph.spelling[i - c];
      LabelLetter(ph.spelling[0], Initial(ph.unit));
      LabelLetter(ph.spelling[1], 'o');
    }
  }

  lemma {:induction false} RenderHasNoComma(ps: seq<Phrase>, trailer: string)
    requires forall i | 0 <= i < |ps| :: WellFormed(ps[i])
    requires Plain(trailer)
    ensures forall i | 0 <= i < |Render(ps, trailer)| :: Render(ps, trailer)[i] != ','
  {
    if ps != [] {
      RenderHasNoComma(ps[1..], trailer);
      var p := PhraseText(ps[0]);
      var rest := Render(ps[1..], trailer);
      forall i | 0 <= i < |p + rest| ensures (p + rest)[i] != ',' {
        if i < |p| {
          PhraseHasNoComma(ps[0], i);
        } else {
          assert (p + rest)[i] == rest[i - |p|];
        }
      }
    }
  }

  lemma ReplaceAbsent(s: string, from: char, to: char)
    requires forall i | 0 <= i < |s| :: s[i] != from
    ensures ReplaceChar(s, from, to) == s
  {
  }

  /**
   * The meaning of a volume text made of phrases: each unit takes the numeral of its first
   * phrase (later phrases of the same unit are ignored, other units do not interfere), and
   * the three amounts are combined as `parse_volume` does.
   */
  lemma ParseRender(ps: seq<Phrase>, trailer: string)
    requires forall i | 0 <= i < |ps| :: WellFormed(ps[i])
    requires Plain(trailer)
    ensures ParseVolume(Some(Render(ps, trailer))) ==
      Combine(FirstNumeral(ps, Go), FirstNumeral(ps, Mo), FirstNumeral(ps, Ko))
  {
    var t := Render(ps, trailer);
    RenderHasNoComma(ps, trailer);
    ReplaceAbsent(t, ',', '.');
    CaptureRender(ps, trailer, Go);
    CaptureRender(ps, trailer, Mo);
    CaptureRender(ps, trailer, Ko);
  }

  /** A run of digits without a point is read as the integer it spells. */
  lemma NumeralOfDigits(s: string)
    requires s != [] && AllDigits(s)
    ensures NumeralValue(s) == Some(DigitsValue(s) as real)
  {
    assert PointIndex(s).None? by {
      if PointIndex(s).Some? {
        assert IsDigit(s[PointIndex(s).value]);
      }
    }
  }

  lemma PointOfDecimal(whole: string, fraction: string)
    requires AllDigits(whole)
    ensures PointIndex(whole + "." + fraction) == Some(|whole|)
  {
    var s := whole + "." + fraction;
    assert s[|whole|] == '.';
    var p := PointIndex(s);
    assert forall j | 0 <= j < |whole| :: s[j] == whole[j];
  }

  /** "<whole>.<fraction>" is read as an exact decimal, either side may be empty but not both. */
  lemma NumeralOfDecimal(whole: string, fraction: string)
    requires AllDigits(whole) && AllDigits(fraction) && |whole| + |fraction| >= 1
    ensures NumeralValue(whole + "." + fraction) == Some(DecimalValue(whole, fraction))
  {
    var s := whole + "." + fraction;
    PointOfDecimal(whole, fraction);
    assert s[..|whole|] == whole;
    assert s[|whole| + 1..] == fraction;
  }

  /** A numeral with two points makes `float` raise. */
  lemma TwoPointsRejected(s: string, i: nat, j: nat)
    requires i < j < |s| && s[i] == '.' && s[j] == '.'
    ensures NumeralValue(s) == None
  {
    var p := PointIndex(s).value;
    assert s[p + 1..][j - p - 1] == '.';
  }

  lemma AmountOfNat(n: nat)
    ensures Amount(Some(NatToString(n))) == Ok(n as real)
  {
    NatToStringValue(n);
    NumeralOfDigits(NatToString(n));
  }

  /** The canonical rendering "g Go m Mo k Ko" as three phrases. */
  function Canonical(g: nat, m: nat, k: nat): seq<Phrase> {
    [Phrase("", NatToString(g), " ", "Go", Go),
     Phrase(" ", NatToString(m), " ", "Mo", Mo),
     Phrase(" ", NatToString(k), " ", "Ko", Ko)]
  }

  lemma CanonicalWellFormed(g: nat, m: nat, k: nat)
    ensures forall i | 0 <= i < |Canonical(g, m, k)| :: WellFormed(Canonical(g, m, k)[i])
  {
    var ps := Canonical(g, m, k);
    NatToStringValue(g);
    NatToStringValue(m);
    NatToStringValue(k);
    assert WellFormed(ps[0]) && WellFormed(ps[1]) && WellFormed(ps[2]);
  }

  lemma RenderThree(p0: Phrase, p1: Phrase, p2: Phrase, trailer: string)
    ensures Render([p0, p1, p2], trailer) == PhraseText(p0) + PhraseText(p1) + PhraseText(p2) + trailer
  {
    var ps := [p0, p1, p2];
    assert ps[1..] == [p1, p2] && ps[1..][1..] == [p2] && ps[1..][1..][1..] == [];
    assert Render([p2], trailer) == PhraseText(p2) + trailer;
    assert Render([p1, p2], trailer) == PhraseText(p1) + (PhraseText(p2) + trailer);
  }

  lemma JoinPieces(a: string, b: string, c: string)
    ensures ("" + a + " " + "Go") + (" " + b + " " + "Mo") + (" " + c + " " + "Ko") + ""
      == a + " Go " + b + " Mo " + c + " Ko"
  {
  }

  lemma RenderCanonical(g: nat, m: nat, k: nat)
    ensures Render(Canonical(g, m, k), "") ==
      NatToString(g) + " Go " + NatToString(m) + " Mo " + NatToString(k) + " Ko"
  {
    var ps := Canonical(g, m, k);
    RenderThree(ps[0], ps[1], ps[2], "");
    JoinPieces(NatToString(g), NatToString(m), NatToString(k));
  }

  lemma CombineNats(g: nat, m: nat, k: nat, n: int)
    requires n == g * 1073741824 + m * 1048576 + k * 1024
    ensures Combine(Some(NatToString(g)), Some(NatToString(m)), Some(NatToString(k))) == Ok(n)
  {
    AmountOfNat(g);
    AmountOfNat(m);
    AmountOfNat(k);
    WholeSum(g, m, k, n);
  }

  /** Whole amounts convert to bytes without loss. */
  lemma WholeSum(g: nat, m: nat, k: nat, n: int)
    requires n == g * 1073741824 + m * 1048576 + k * 1024
    ensures ((g as real) * 1073741824.0 + (m as real) * 1048576.0 + (k as real) * 1024.0).Floor == n
  {
    assert (g as real) * 1073741824.0 + (m as real) * 1048576.0 + (k as real) * 1024.0 == n as real;
  }

  lemma FirstNumeralCanonical(g: nat, m: nat, k: nat)
    ensures FirstNumeral(Canonical(g, m, k), Go) == Some(NatToString(g))
    ensures FirstNumeral(Canonical(g, m, k), Mo) == Some(NatToString(m))
    ensures FirstNumeral(Canonical(g, m, k), Ko) == Some(NatToString(k))
  {
    var ps := Canonical(g, m, k);
    assert ps[1..][1..] == ps[2..];
    assert FirstNumeral(ps[2..], Ko) == Some(NatToString(k));
    assert FirstNumeral(ps[1..], Ko) == FirstNumeral(ps[2..], Ko);
  }

  /** Three phrases with integer numerals "g Go m Mo k Ko" give g*1024^3 + m*1024^2 + k*1024. */
  lemma ParseIntegerVolume(g: nat, m: nat, k: nat, n: int)
    requires n == g * 1073741824 + m * 1048576 + k * 1024
    ensures ParseVolume(Some(NatToString(g) + " Go " + NatToString(m) + " Mo " + NatToString(k) + " Ko"))
      == Ok(n)
  {
    var ps := Canonical(g, m, k);
    assert ParseVolume(Some(Render(ps, ""))) ==
      Combine(Some(NatToString(g)), Some(NatToString(m)), Some(NatToString(k))) by {
      CanonicalWellFormed(g, m, k);
      ParseRender(ps, "");
      FirstNumeralCanonical(g, m, k);
    }
    RenderCanonical(g, m, k);
    CombineNats(g, m, k, n);
  }

  // ---------------------------------------------------------------------------------------
  // The round trip bytes -> text -> bytes.

  /** `parse_volume(format_volume(b))` loses exactly the bytes below one Ko. */
  lemma RoundTrip(b: nat)
    ensures ParseVolume(Some(FormatVolume(Some(b)))) == Ok(b - b % 1024)
  {
    var g, m, k := FormatDigits(b);
    var s := NatToString(g) + " Go " + NatToString(m) + " Mo " + NatToString(k) + " Ko";
    ParseIntegerVolume(g, m, k, b - b % 1024);
    SameText(FormatVolume(Some(b)), s, b - b % 1024);
  }

  lemma SameText(s: string, t: string, n: int)
    requires s == t && ParseVolume(Some(t)) == Ok(n)
    ensures ParseVolume(Some(s)) == Ok(n)
  {
  }

  /** The text `format_volume` prints for a non-negative count, and what its numbers add up to. */
  lemma FormatDigits(b: nat) returns (g: nat, m: nat, k: nat)
    ensures FormatVolume(Some(b)) ==
      NatToString(g) + " Go " + NatToString(m) + " Mo " + NatToString(k) + " Ko"
    ensures g * 1073741824 + m * 1048576 + k * 1024 == b - b % 1024
  {
    var c := Components(b);
    g, m, k := c.0, c.1, c.2;
    FormatOfNat(b, g, m, k);
  }

  lemma FormatOfNat(b: nat, g: nat, m: nat, k: nat)
    requires Components(b) == (g, m, k)
    ensures FormatVolume(Some(b)) ==
      NatToString(g) + " Go " + NatToString(m) + " Mo " + NatToString(k) + " Ko"
  {
  }

  /** The round trip is exact precisely for whole numbers of Ko. */
  lemma RoundTripExact(b: nat)
    ensures ParseVolume(Some(FormatVolume(Some(b)))) == Ok(b) <==> b % 1024 == 0
  {
    RoundTrip(b);
  }

  /** `format_volume(None)` is the zero text, the same as formatting 0 bytes. */
  lemma FormatAbsent()
    ensures FormatVolume(None) == FormatVolume(Some(0)) == "0 Go 0 Mo 0 Ko"
  {
    ZeroComponents();
    assert NatToString(0) == "0";
  }

  lemma ZeroComponents()
    ensures Components(0) == (0, 0, 0)
  {
  }

  // ---------------------------------------------------------------------------------------
  // Independent searches: order, repetition, malformed numbers.

  predicate DistinctUnits(ps: seq<Phrase>) {
    forall i, j | 0 <= i < j < |ps| :: ps[i].unit != ps[j].unit
  }

  lemma {:induction false} FirstNumeralFound(ps: seq<Phrase>, p: Phrase, u: Unit)
    requires DistinctUnits(ps) && p in ps && p.unit == u
    ensures FirstNumeral(ps, u) == Some(p.numeral)
  {
    if ps[0] != p {
      var k :| 0 <= k < |ps| && ps[k] == p;
      assert k > 0;
      assert ps[1..][k - 1] == p;
      FirstNumeralFound(ps[1..], p, u);
    }
  }

  lemma {:induction false} FirstNumeralAbsent(ps: seq<Phrase>, u: Unit)
    requires forall p | p in ps :: p.unit != u
    ensures FirstNumeral(ps, u) == None
  {
    if ps != [] {
      assert ps[0] in ps;
      FirstNumeralAbsent(ps[1..], u);
    }
  }

  /**
   * With each unit written once, the order of the phrases does not matter:
   * "5 Ko 1 Go" and "1 Go 5 Ko" mean the same.
   */
  lemma OrderIrrelevant(ps: seq<Phrase>, qs: seq<Phrase>, trailer: string, trailer': string)
    requires forall i | 0 <= i < |ps| :: WellFormed(ps[i])
    requires forall i | 0 <= i < |qs| :: WellFormed(qs[i])
    requires Plain(trailer) && Plain(trailer')
    requires DistinctUnits(ps) && DistinctUnits(qs)
    requires forall p :: p in ps <==> p in qs
    ensures ParseVolume(Some(Render(ps, trailer))) == ParseVolume(Some(Render(qs, trailer')))
  {
    ParseRender(ps, trailer);
    ParseRender(qs, trailer');
    forall u ensures FirstNumeral(ps, u) == FirstNumeral(qs, u) {
      if p :| p in ps && p.unit == u {
        FirstNumeralFound(ps, p, u);
        FirstNumeralFound(qs, p, u);
      } else {
        FirstNumeralAbsent(ps, u);
        FirstNumeralAbsent(qs, u);
      }
    }
  }

  lemma {:induction false} FirstNumeralAppend(ps: seq<Phrase>, p: Phrase, u: Unit)
    ensures FirstNumeral(ps + [p], u) ==
      if FirstNumeral(ps, u).Some? then FirstNumeral(ps, u)
      else if p.unit == u then Some(p.numeral) else None
  {
    if ps == [] {
      assert ps + [p] == [p];
    } else {
      assert (ps + [p])[1..] == ps[1..] + [p];
      FirstNumeralAppend(ps[1..], p, u);
    }
  }

  lemma {:induction false} FirstNumeralPresent(ps: seq<Phrase>, i: nat)
    requires i < |ps|
    ensures FirstNumeral(ps, ps[i].unit).Some?
  {
    if i > 0 && ps[0].unit != ps[i].unit {
      FirstNumeralPresent(ps[1..], i - 1);
    }
  }

  /** Only the first match of a unit counts: "1 Go 2 Go" is 1 Go. */
  lemma LaterRepeatIgnored(ps: seq<Phrase>, p: Phrase, trailer: string, i: nat)
    requires forall j | 0 <= j < |ps| :: WellFormed(ps[j])
    requires WellFormed(p) && Plain(trailer)
    requires i < |ps| && ps[i].unit == p.unit
    ensures ParseVolume(Some(Render(ps + [p], trailer))) == ParseVolume(Some(Render(ps, trailer)))
  {
    ParseRender(ps, trailer);
    ParseRender(ps + [p], trailer);
    FirstNumeralPresent(ps, i);
    FirstNumeralAppend(ps, p, Go);
    FirstNumeralAppend(ps, p, Mo);
    FirstNumeralAppend(ps, p, Ko);
  }

  /**
   * A volume text raises exactly when the first numeral of some unit is not a number
   * `float` accepts (such as "1.2.3" or "."); a missing unit never raises.
   */
  lemma MalformedRaises(ps: seq<Phrase>, trailer: string)
    requires forall j | 0 <= j < |ps| :: WellFormed(ps[j])
    requires Plain(trailer)
    ensures ParseVolume(Some(Render(ps, trailer))).Err? <==>
      exists u :: FirstNumeral(ps, u).Some? && NumeralValue(FirstNumeral(ps, u).value).None?
  {
    ParseRender(ps, trailer);
    CombineFails(FirstNumeral(ps, Go), FirstNumeral(ps, Mo), FirstNumeral(ps, Ko));
    if exists u :: FirstNumeral(ps, u).Some? && NumeralValue(FirstNumeral(ps, u).value).None? {
      var u :| FirstNumeral(ps, u).Some? && NumeralValue(FirstNumeral(ps, u).value).None?;
      assert u == Go || u == Mo || u == Ko;
    } else {
      assert !Malformed(FirstNumeral(ps, Go)) && !Malformed(FirstNumeral(ps, Mo)) && !Malformed(FirstNumeral(ps, Ko));
    }
  }

  /** A unit whose pattern matched on a numeral that `float` rejects. */
  predicate Malformed(capture: Option<string>) {
    capture.Some? && NumeralValue(capture.value).None?
  }

  /** The arithmetic tail fails exactly when one of the three captures is malformed. */
  lemma CombineFails(go: Option<string>, mo: Option<string>, ko: Option<string>)
    ensures Combine(go, mo, ko).Err? <==> Malformed(go) || Malformed(mo) || Malformed(ko)
  {
  }

  // ---------------------------------------------------------------------------------------
  // Commas and texts without units.

  lemma ReplaceTwice(s: string)
    ensures ReplaceChar(ReplaceChar(s, ',', '.'), ',', '.') == ReplaceChar(s, ',', '.')
  {
  }

  /** A comma is read as the decimal point: "1,5 Go" and "1.5 Go" mean the same. */
  lemma CommaIsDecimalPoint(s: string)
    ensures ParseVolume(Some(s)) == ParseVolume(Some(ReplaceChar(s, ',', '.')))
  {
    ReplaceTwice(s);
  }

  lemma NoMatchNoCapture(t: string, u: Unit)
    requires forall j | 0 <= j < |t| :: !MatchAt(t, j, u)
    ensures Capture(t, u) == None
  {
    SkipNoMatch(t, u, 0, |t|);
  }

  /**
   * Every unit label ends in 'o', so a text without 'o' or 'O' matches no unit and is worth
   * 0 bytes ("", "garbage", "12,5").
   */
  lemma NoUnitIsZero(s: string)
    requires forall i | 0 <= i < |s| :: s[i] != 'o' && s[i] != 'O'
    ensures ParseVolume(Some(s)) == Ok(0)
  {
    var t := ReplaceChar(s, ',', '.');
    ReplaceCharAt(s, ',', '.');
    forall u ensures Capture(t, u) == None {
      forall j | 0 <= j < |t| ensures !MatchAt(t, j, u) {
      }
      NoMatchNoCapture(t, u);
    }
  }

  // ---------------------------------------------------------------------------------------
  // Worked examples.

  /** 8 Go 206 Mo 633 Ko is 8806589440 bytes, and that many bytes format back to it. */
  lemma BillingExample()
    ensures FormatVolume(Some(8806589440)) == "8 Go 206 Mo 633 Ko"
    ensures 8806589440 == 8 * 1073741824 + 206 * 1048576 + 633 * 1024
    ensures ParseVolume(Some("8 Go 206 Mo 633 Ko")) == Ok(8806589440)
  {
    ParseIntegerVolume(8, 206, 633, 8806589440);
    BillingComponents();
    FormatOfNat(8806589440, 8, 206, 633);
    BillingDigits();
  }

  lemma BillingComponents()
    ensures Components(8806589440) == (8, 206, 633)
  {
  }

  lemma BillingDigits()
    ensures NatToString(8) == "8" && NatToString(206) == "206" && NatToString(633) == "633"
  {
    assert NatToString(8) == "8";
    assert NatToString(206) == "206";
    assert NatToString(633) == "633";
  }
}
