/** The per-cell parsers of DataProcessor.feature_engineering
    (src/data_processing.py): fit, weight, height, BMI and bust size. */
module Parsers {
  import opened Wrappers
  import opened Text

  // ---------------------------------------------------------------- fit

  /** The fit labels in code order: "small" is 0, "fit" is 1, "large" is 2. */
  const FitLabels: seq<string> := ["small", "fit", "large"]

  /** The source's fit_mapping. */
  const FitMapping: map<string, real> := map["small" := 0.0, "fit" := 1.0, "large" := 2.0]

  /** df["fit"].map(fit_mapping): any other value, or a missing one, is missing. */
  function FitCode(fit: Option<string>): (r: Option<real>)
    ensures r.Some? <==> fit.Some? && fit.value in FitLabels
    ensures r.Some? ==> r.value == 0.0 || r.value == 1.0 || r.value == 2.0
  {
    if fit.Some? && fit.value in FitMapping then Some(FitMapping[fit.value]) else None
  }

  /** The code of a label is its position in FitLabels, and only that label has it. */
  lemma FitCodeIsPosition(fit: Option<string>, k: nat)
    requires k < |FitLabels|
    ensures FitCode(fit) == Some(k as real) <==> fit == Some(FitLabels[k])
  {
  }

  // ---------------------------------------------------------------- numbers

  /** Digits only, possibly none. */
  predicate AllDigits(s: string) { forall i :: 0 <= i < |s| ==> IsDigit(s[i]) }

  /** pd.to_numeric on a plain decimal: digits, or digits on either side of
      one point with at least one digit in all ("5", "5.25", ".5", "5.");
      anything else is missing. */
  function ParseNumber(s: string): (r: Option<real>)
    ensures r.Some? ==> r.value >= 0.0
    ensures r.Some? ==> forall i :: 0 <= i < |s| ==> IsDigit(s[i]) || s[i] == '.'
    ensures r.Some? ==> Occurrences(s, '.') <= 1 && exists i :: 0 <= i < |s| && IsDigit(s[i])
    ensures IsDigits(s) ==> r == Some(DigitsValue(s) as real)
  {
    var parts := Split(s, '.');
    if |parts| == 1 && IsDigits(s) then
      Some(DigitsValue(s) as real)
    else if |parts| == 2 && AllDigits(parts[0]) && AllDigits(parts[1]) && |parts[0]| + |parts[1]| > 0 then
      SplitTwo(s, '.');
      assert s[|parts[0]|] == '.';
      assert if |parts[0]| > 0 then s[0] == parts[0][0] else s[1] == parts[1][0];
      Some(DecimalValue(parts[0], parts[1]))
    else
      assert IsDigits(s) ==> Occurrences(s, '.') == 0 by {
        if IsDigits(s) { NoOccurrences(s, '.'); }
      }
      None
  }

  /** Digits around one point, with at least one digit, read as a decimal:
      the whole part, plus the fraction part over its power of ten. */
  lemma ParseDecimal(whole: string, fraction: string)
    requires AllDigits(whole) && AllDigits(fraction) && |whole| + |fraction| > 0
    ensures ParseNumber(whole + "." + fraction) == Some(DecimalValue(whole, fraction))
  {
    assert '.' !in whole && '.' !in fraction by {
      assert !IsDigit('.');
    }
    SplitOnce(whole, fraction, '.');
  }

  /** The value of whole.fraction: the whole part plus the fraction part over
      ten to the number of fraction digits. */
  function DecimalValue(whole: string, fraction: string): (r: real)
    requires AllDigits(whole) && AllDigits(fraction)
    ensures DigitsValue(whole) as real <= r < DigitsValue(whole) as real + 1.0
  {
    FractionBelowOne(fraction);
    var part := DigitsValue(fraction) as real / Pow10(|fraction|) as real;
    ProperFraction(DigitsValue(fraction) as real, Pow10(|fraction|) as real);
    DigitsValue(whole) as real + part
  }

  lemma ProperFraction(a: real, q: real)
    requires 0.0 <= a < q
    ensures 0.0 <= a / q < 1.0
  {
  }

  /** n fraction digits stand for less than one. */
  lemma {:induction false} FractionBelowOne(fraction: string)
    requires AllDigits(fraction)
    ensures DigitsValue(fraction) < Pow10(|fraction|)
    decreases |fraction|
  {
    if |fraction| > 0 {
      var init := fraction[..|fraction| - 1];
      FractionBelowOne(init);
      assert DigitsValue(fraction) == 10 * DigitsValue(init) + DigitValue(fraction[|fraction| - 1]);
    }
  }

  /** A point with a digit on one side only is a number; a lone point is not. */
  lemma DecimalExamples()
    ensures ParseNumber(".5") == Some(0.5)
    ensures ParseNumber("5.") == Some(5.0)
    ensures ParseNumber(".") == None
  {
    ParseDecimal("", "5");
    assert "" + "." + "5" == ".5";
    assert DecimalValue("", "5") == 0.5;
    ParseDecimal("5", "");
    assert "5" + "." + "" == "5.";
    assert DecimalValue("5", "") == 5.0;
    SplitOnce("", "", '.');
    assert "" + ['.'] + "" == ".";
  }

  function Pow10(n: nat): (r: nat)
    ensures r > 0
  {
    if n == 0 then 1 else 10 * Pow10(n - 1)
  }

  lemma {:induction false} NoOccurrences(s: string, c: char)
    requires forall i :: 0 <= i < |s| ==> s[i] != c
    ensures Occurrences(s, c) == 0
    decreases |s|
  {
    if |s| > 0 {
      NoOccurrences(s[1..], c);
    }
  }

  // ---------------------------------------------------------------- weight

  /** df["weight"].astype(str).str.replace("lbs", "").str.strip(), then
      pd.to_numeric(errors="coerce"). */
  function ParseWeight(w: Option<string>): (r: Option<real>)
    ensures w.None? ==> r.None?
    ensures r.Some? ==> r.value >= 0.0
  {
    match w
    case None => None
    case Some(s) => ParseNumber(Strip(RemoveAll(s, "lbs")))
  }

  /** A weight of half a pound written with a leading point is read, not dropped. */
  lemma HalfPoundWeight()
    ensures ParseWeight(Some(".5lbs")) == Some(0.5)
  {
    RemoveAllPrefix(".5", "lbs", "lbs");
    assert ".5" + "lbs" == ".5lbs";
    assert RemoveAll("lbs", "lbs") == "";
    assert ".5" + "" == ".5";
    StripUnpadded(".5");
    DecimalExamples();
  }

  /** A weight written as a whole number of pounds with the unit suffix parses
      back to that number. */
  lemma WeightRoundTrip(n: nat)
    ensures ParseWeight(Some(Render(n) + "lbs")) == Some(n as real)
  {
    var d := Render(n);
    RemoveAllPrefix(d, "lbs", "lbs");
    assert RemoveAll("lbs", "lbs") == "";
    assert d + "" == d;
    StripUnpadded(d);
  }

  // ---------------------------------------------------------------- height

  /** The inches after the foot mark: every '"' removed, then stripped. */
  function InchesPart(rest: string): string {
    Strip(RemoveAll(rest, "\""))
  }

  /** convert_height: h.split("'") must give exactly two pieces, the first made
      of digits and the second made of digits once its '"' marks are removed and
      it is stripped; the value is 12 * feet + inches. Anything else is missing. */
  function ConvertHeight(h: Option<string>): (r: Option<nat>)
    ensures h.None? ==> r.None?
    ensures r.Some? ==> Occurrences(h.value, '\'') == 1
  {
    match h
    case None => None
    case Some(s) => HeightOfParts(Split(s, '\''))
  }

  function HeightOfParts(parts: seq<string>): Option<nat> {
    if |parts| == 2 && IsDigits(parts[0]) && IsDigits(InchesPart(parts[1])) then
      Some(DigitsValue(parts[0]) * 12 + DigitsValue(InchesPart(parts[1])))
    else None
  }

  /** Every well-shaped height is accepted, with its value in inches. */
  lemma ConvertHeightAccepts(f: string, rest: string, feet: nat, inches: nat)
    requires '\'' !in f && '\'' !in rest
    requires IsDigits(f) && IsDigits(InchesPart(rest))
    requires DigitsValue(f) == feet && DigitsValue(InchesPart(rest)) == inches
    ensures ConvertHeight(Some(f + "'" + rest)) == Some(feet * 12 + inches)
  {
    var s := f + "'" + rest;
    assert s == f + ['\''] + rest;
    SplitOnce(f, rest, '\'');
    assert ConvertHeight(Some(s)) == HeightOfParts([f, rest]);
    HeightOfTwoParts(f, rest, feet, inches);
  }

  lemma HeightOfTwoParts(f: string, rest: string, feet: nat, inches: nat)
    requires IsDigits(f) && IsDigits(InchesPart(rest))
    requires DigitsValue(f) == feet && DigitsValue(InchesPart(rest)) == inches
    ensures HeightOfParts([f, rest]) == Some(feet * 12 + inches)
  {
    var parts := [f, rest];
    assert |parts| == 2 && parts[0] == f && parts[1] == rest;
  }

  /** s is feet'rest with a single foot mark, digits before it, and digits
      after it once the '"' marks and surrounding whitespace go. */
  predicate HeightText(s: string, feet: string, rest: string) {
    && s == feet + "'" + rest
    && '\'' !in feet && '\'' !in rest
    && IsDigits(feet) && IsDigits(InchesPart(rest))
  }

  /** Only well-shaped heights are accepted, and their value is 12 * feet + inches. */
  lemma ConvertHeightShape(s: string)
    requires ConvertHeight(Some(s)).Some?
    ensures exists feet, rest ::
      && HeightText(s, feet, rest)
      && ConvertHeight(Some(s)) == Some(DigitsValue(feet) * 12 + DigitsValue(InchesPart(rest)))
  {
    var parts := Split(s, '\'');
    SplitTwo(s, '\'');
    assert HeightText(s, parts[0], parts[1]);
  }

  /** The usual rendering feet'<space>inches" parses back. */
  lemma HeightRoundTrip(feet: nat, inches: nat)
    ensures ConvertHeight(Some(Render(feet) + "' " + Render(inches) + "\"")) == Some(feet * 12 + inches)
  {
    var f, i := Render(feet), Render(inches);
    var rest := " " + i + "\"";
    HeightTextShape(f, i);
    InchesOfRendered(i);
    assert '\'' !in f by {
      assert forall k :: 0 <= k < |f| ==> IsDigit(f[k]);
    }
    ConvertHeightAccepts(f, rest, feet, inches);
  }

  lemma HeightTextShape(f: string, i: string)
    ensures f + "' " + i + "\"" == f + "'" + (" " + i + "\"")
  {
  }

  lemma InchesOfRendered(i: string)
    requires IsDigits(i)
    ensures InchesPart(" " + i + "\"") == i
    ensures '\'' !in " " + i + "\""
  {
    var rest := " " + i + "\"";
    var body := " " + i;
    assert rest == body + "\"";
    assert forall k :: 0 <= k < |body| ==> body[k] == ' ' || IsDigit(body[k]);
    RemoveAllPrefix(body, "\"", "\"");
    assert RemoveAll("\"", "\"") == "";
    assert body + "" == body;
    StripLeadingSpace(i);
    assert forall k :: 0 <= k < |rest| ==> rest[k] == ' ' || rest[k] == '"' || IsDigit(rest[k]);
  }

  // ---------------------------------------------------------------- BMI

  /** np.where((height > 0) & (weight > 0), weight / height**2 * 703, nan):
      a missing input compares false, so BMI is missing unless both are positive. */
  function Bmi(height: Option<real>, weight: Option<real>): (r: Option<real>)
    ensures r.Some? <==> height.Some? && weight.Some? && height.value > 0.0 && weight.value > 0.0
    ensures r.Some? ==> r.value > 0.0 && r.value * (height.value * height.value) == 703.0 * weight.value
  {
    if height.Some? && weight.Some? && height.value > 0.0 && weight.value > 0.0 then
      var h2 := height.value * height.value;
      assert h2 > 0.0;
      Some(weight.value / h2 * 703.0)
    else None
  }

  // ---------------------------------------------------------------- bust size

  /** The index of the first digit of `s`, or |s| when it has none. */
  function FirstDigit(s: string): (i: nat)
    ensures i <= |s|
    ensures forall k :: 0 <= k < i ==> !IsDigit(s[k])
    ensures i < |s| ==> IsDigit(s[i])
    decreases |s|
  {
    if |s| == 0 || IsDigit(s[0]) then 0 else 1 + FirstDigit(s[1..])
  }

  /** The length of the run of digits that starts `s`. */
  function LeadingDigits(s: string): (n: nat)
    ensures n <= |s|
    ensures forall k :: 0 <= k < n ==> IsDigit(s[k])
    ensures n < |s| ==> !IsDigit(s[n])
    decreases |s|
  {
    if |s| > 0 && IsDigit(s[0]) then 1 + LeadingDigits(s[1..]) else 0
  }

  /** s[i..j] is the first maximal run of digits of `s`: what r"(\d+)" captures. */
  predicate IsFirstDigitRun(s: string, i: int, j: int) {
    && 0 <= i < j <= |s|
    && (forall k :: 0 <= k < i ==> !IsDigit(s[k]))
    && (forall k :: i <= k < j ==> IsDigit(s[k]))
    && (j == |s| || !IsDigit(s[j]))
  }

  /** bust_band: the value of the first digit run, missing when there is none. */
  function BustBand(b: Option<string>): (r: Option<nat>)
    ensures r.Some? <==> b.Some? && exists k :: 0 <= k < |b.value| && IsDigit(b.value[k])
    ensures r.Some? ==> exists i, j :: IsFirstDigitRun(b.value, i, j) && r.value == DigitsValue(b.value[i..j])
  {
    match b
    case None => None
    case Some(s) =>
      var i := FirstDigit(s);
      if i == |s| then None
      else
        var j := i + LeadingDigits(s[i..]);
        assert forall k :: i <= k < j ==> s[k] == s[i..][k - i];
        assert j < |s| ==> s[j] == s[i..][j - i];
        assert IsFirstDigitRun(s, i, j);
        Some(DigitsValue(s[i..j]))
  }

  /** The number of non-letters at the end of `s`. */
  function TrailingNonLetters(s: string): (n: nat)
    ensures n <= |s|
    ensures forall k :: |s| - n <= k < |s| ==> !IsLetter(s[k])
    ensures n < |s| ==> IsLetter(s[|s| - 1 - n])
    decreases |s|
  {
    if |s| > 0 && !IsLetter(s[|s| - 1]) then 1 + TrailingNonLetters(s[..|s| - 1]) else 0
  }

  /** The number of letters at the end of `s`. */
  function TrailingLetters(s: string): (n: nat)
    ensures n <= |s|
    ensures forall k :: |s| - n <= k < |s| ==> IsLetter(s[k])
    ensures n < |s| ==> !IsLetter(s[|s| - 1 - n])
    decreases |s|
  {
    if |s| > 0 && IsLetter(s[|s| - 1]) then 1 + TrailingLetters(s[..|s| - 1]) else 0
  }

  /** s[i..j] is the last maximal run of letters of `s`: what the leftmost match of
      r"([A-Za-z]+)[^A-Za-z]*$" captures. */
  predicate IsLastLetterRun(s: string, i: int, j: int) {
    && 0 <= i < j <= |s|
    && (i == 0 || !IsLetter(s[i - 1]))
    && (forall k :: i <= k < j ==> IsLetter(s[k]))
    && (forall k :: j <= k < |s| ==> !IsLetter(s[k]))
  }

  /** bust_cup: the last letter run, lower-cased; missing when there is none. */
  function BustCup(b: Option<string>): (r: Option<string>)
    ensures r.Some? <==> b.Some? && exists k :: 0 <= k < |b.value| && IsLetter(b.value[k])
    ensures r.Some? ==> exists i, j :: IsLastLetterRun(b.value, i, j) && r.value == Lower(b.value[i..j])
  {
    match b
    case None => None
    case Some(s) =>
      var j := |s| - TrailingNonLetters(s);
      if j == 0 then None
      else
        var i := j - TrailingLetters(s[..j]);
        assert forall k :: i <= k < j ==> s[k] == s[..j][k];
        assert i > 0 ==> s[i - 1] == s[..j][i - 1];
        assert IsLastLetterRun(s, i, j);
        Some(Lower(s[i..j]))
  }

  /** The cup sizes of the source's cup_map, smallest first. */
  const CupSizes: seq<string> := ["aa", "a", "b", "c", "d", "dd", "ddd", "f"]

  /** The source's cup_map. */
  const CupMapping: map<string, real> :=
    map["aa" := 0.5, "a" := 1.0, "b" := 2.0, "c" := 3.0, "d" := 4.0, "dd" := 5.0, "ddd" := 6.0, "f" := 7.0]

  /** df["bust_cup"].map(cup_map): an unmapped or missing cup is missing. */
  function CupLookup(cup: Option<string>): (r: Option<real>)
    ensures r.Some? <==> cup.Some? && cup.value in CupSizes
    ensures r.Some? ==> 0.5 <= r.value <= 7.0
  {
    if cup.Some? && cup.value in CupMapping then Some(CupMapping[cup.value]) else None
  }

  /** bust_cup_encoded after fillna(0): the cup code, 0 for an unmapped or missing cup. */
  function CupCode(cup: Option<string>): (r: real)
    ensures r == 0.0 <==> cup.None? || cup.value !in CupSizes
    ensures 0.0 <= r <= 7.0
  {
    CupLookup(cup).GetOr(0.0)
  }

  /** Codes grow with cup size, so distinct mapped cups get distinct codes. */
  lemma CupCodeOrdered(i: nat, j: nat)
    requires i < j < |CupSizes|
    ensures 0.0 < CupCode(Some(CupSizes[i])) < CupCode(Some(CupSizes[j]))
  {
  }

  /** A string has at most one first digit run. */
  lemma FirstDigitRunUnique(s: string, i: int, j: int, i': int, j': int)
    requires IsFirstDigitRun(s, i, j) && IsFirstDigitRun(s, i', j')
    ensures i == i' && j == j'
  {
    // Each run starts at a digit, and no digit precedes either start.
    assert IsDigit(s[i]) && IsDigit(s[i']);
    assert i == i';
    // Each run ends at the end of the string or before a non-digit.
    assert j < |s| ==> !IsDigit(s[j]);
    assert j' < |s| ==> !IsDigit(s[j']);
  }

  /** A string has at most one last letter run. */
  lemma LastLetterRunUnique(s: string, i: int, j: int, i': int, j': int)
    requires IsLastLetterRun(s, i, j) && IsLastLetterRun(s, i', j')
    ensures i == i' && j == j'
  {
    // Each run ends at a letter, and no letter follows either end.
    assert IsLetter(s[j - 1]) && IsLetter(s[j' - 1]);
    assert j == j';
    // Each run starts at the beginning of the string or after a non-letter.
    assert i > 0 ==> !IsLetter(s[i - 1]);
    assert i' > 0 ==> !IsLetter(s[i' - 1]);
  }

  /** A band followed by a cup parses back into both parts. */
  lemma BustRoundTrip(band: nat, cup: string)
    requires |cup| > 0 && forall k :: 0 <= k < |cup| ==> IsLetter(cup[k])
    ensures BustBand(Some(Render(band) + cup)) == Some(band)
    ensures BustCup(Some(Render(band) + cup)) == Some(Lower(cup))
  {
    BandOfBust(Render(band), cup);
    CupOfBust(Render(band), cup);
  }

  lemma BandOfBust(d: string, cup: string)
    requires IsDigits(d)
    requires forall k :: 0 <= k < |cup| ==> IsLetter(cup[k])
    ensures BustBand(Some(d + cup)) == Some(DigitsValue(d))
  {
    var s := d + cup;
    assert IsFirstDigitRun(s, 0, |d|) by {
      assert forall k :: 0 <= k < |d| ==> s[k] == d[k];
      assert |d| < |s| ==> s[|d|] == cup[0];
    }
    assert BustBand(Some(s)).Some? by {
      assert IsDigit(Some(s).value[0]);
    }
    var i, j :| IsFirstDigitRun(s, i, j) && BustBand(Some(s)).value == DigitsValue(s[i..j]);
    FirstDigitRunUnique(s, i, j, 0, |d|);
    assert s[i..j] == d;
  }

  lemma CupOfBust(d: string, cup: string)
    requires forall k :: 0 <= k < |d| ==> IsDigit(d[k])
    requires |cup| > 0 && forall k :: 0 <= k < |cup| ==> IsLetter(cup[k])
    ensures BustCup(Some(d + cup)) == Some(Lower(cup))
  {
    var s := d + cup;
    assert IsLastLetterRun(s, |d|, |s|) by {
      assert forall k :: |d| <= k < |s| ==> s[k] == cup[k - |d|];
      assert |d| > 0 ==> s[|d| - 1] == d[|d| - 1];
    }
    assert BustCup(Some(s)).Some? by {
      assert IsLetter(Some(s).value[|s| - 1]);
    }
    var i, j :| IsLastLetterRun(s, i, j) && BustCup(Some(s)).value == Lower(s[i..j]);
    LastLetterRunUnique(s, i, j, |d|, |s|);
    assert s[i..j] == cup;
  }

  /** 5' 8" is 68 inches; 5ft8 has no foot mark and is missing. */
  lemma HeightExamples()
    ensures ConvertHeight(Some("5' 8\"")) == Some(68)
    ensures ConvertHeight(Some("5ft8")) == None
  {
    assert Render(5) == "5" && Render(8) == "8";
    HeightRoundTrip(5, 8);
    assert "5" + "' " + "8" + "\"" == "5' 8\"";
    SplitNoSeparator("5ft8", '\'');
  }

  /** "34dd" has band 34 and cup "dd", coded 5. */
  lemma BustExample()
    ensures BustBand(Some("34dd")) == Some(34)
    ensures BustCup(Some("34dd")) == Some("dd")
    ensures CupCode(BustCup(Some("34dd"))) == 5.0
  {
    RenderThirtyFour();
    LowerDd();
    BustRoundTrip(34, "dd");
    assert Render(34) + "dd" == "34dd";
    CupCodeDd();
  }

  lemma LowerDd()
    ensures Lower("dd") == "dd"
  {
  }

  lemma CupCodeDd()
    ensures CupCode(Some("dd")) == 5.0
  {
  }

  lemma RenderThirtyFour()
    ensures Render(34) == "34"
  {
    assert Render(3) == "3";
    assert DigitChar(4) == '4';
  }

  /** "34" alone has no cup, so its cup code is the fill value 0. */
  lemma BustWithoutCup()
    ensures BustCup(Some("34")) == None
    ensures CupCode(BustCup(Some("34"))) == 0.0
  {
    var s := "34";
    assert forall k :: 0 <= k < |s| ==> !IsLetter(s[k]);
  }
}
