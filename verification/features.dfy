/** DataProcessor.feature_engineering (src/data_processing.py): the derived
    columns added to a cleaned review frame, one step per block of the source. */
module FeatureEngineering {
  import opened Wrappers
  import opened Text
  import opened Frames
  import opened Parsers
  import opened LabelEncoding
  import Cleaning

  // ---------------------------------------------------------------- full_review

  /** fillna(""): a missing text reads as empty. */
  function OrEmpty(s: Option<string>): string {
    s.GetOr("")
  }

  /** One row of full_review: summary and text joined by a space, then stripped. */
  function FullReview(summary: Option<string>, text: Option<string>): (r: string)
    ensures |r| <= |OrEmpty(summary)| + 1 + |OrEmpty(text)|
    ensures r == [] || (!IsSpace(r[0]) && !IsSpace(r[|r| - 1]))
  {
    Strip(OrEmpty(summary) + " " + OrEmpty(text))
  }

  /** Two non-empty, already stripped parts are joined with exactly one space. */
  lemma FullReviewJoins(summary: string, text: string)
    requires |summary| > 0 && !IsSpace(summary[0]) && !IsSpace(summary[|summary| - 1])
    requires |text| > 0 && !IsSpace(text[0]) && !IsSpace(text[|text| - 1])
    ensures FullReview(Some(summary), Some(text)) == summary + " " + text
  {
    var s := summary + " " + text;
    assert s[0] == summary[0] && s[|s| - 1] == text[|text| - 1];
    StripUnpadded(s);
  }

  /** A row with neither summary nor text gets an empty review. */
  lemma FullReviewEmpty()
    ensures FullReview(None, None) == ""
  {
    assert LeadingSpaces(" ") == 1;
  }

  // ---------------------------------------------------------------- per-row values

  /** The weight column after astype(str), removing "lbs", strip() and to_numeric:
      text cells are parsed, a numeric column keeps its values. */
  function WeightCells(c: Cells): (r: seq<Option<real>>)
    ensures |r| == Len(c)
    ensures c.Nums? ==> r == c.nums
    ensures c.Texts? ==> forall k :: 0 <= k < |r| ==> (r[k].Some? ==> c.texts[k].Some? && r[k].value >= 0.0)
  {
    match c
    case Nums(n) => n
    case Texts(t) => seq(|t|, k requires 0 <= k < |t| => ParseWeight(t[k]))
  }

  function AsReal(o: Option<nat>): (r: Option<real>)
    ensures r.Some? <==> o.Some?
    ensures r.Some? ==> r.value == o.value as real
  {
    match o
    case None => None
    case Some(n) => Some(n as real)
  }

  /** The categorical columns encoded, in the order the source encodes them. */
  const Categorical: seq<string> := ["body type", "rented for", "category"]

  /** The name of the encoded column of a categorical feature. */
  function EncodedName(feature: string): string {
    feature + "_encoded"
  }

  lemma EncodedNames()
    ensures EncodedName("body type") == "body type_encoded"
    ensures EncodedName("rented for") == "rented for_encoded"
    ensures EncodedName("category") == "category_encoded"
  {
    assert "body type" + "_encoded" == "body type_encoded";
    assert "rented for" + "_encoded" == "rented for_encoded";
    assert "category" + "_encoded" == "category_encoded";
  }

  /** astype(str): a missing cell reads "nan"; a number is rendered by `show`. */
  function LabelTexts(c: Cells, show: real -> string): (r: seq<string>)
    ensures |r| == Len(c)
    ensures c.Texts? ==> forall k :: 0 <= k < |r| ==> c.texts[k].Some? ==> r[k] == c.texts[k].value
  {
    match c
    case Texts(t) => seq(|t|, k requires 0 <= k < |t| => if t[k].Some? then t[k].value else "nan")
    case Nums(n) => seq(|n|, k requires 0 <= k < |n| => if n[k].Some? then show(n[k].value) else "nan")
  }

  /** The label codes of a column, as numbers. */
  function Codes(values: seq<string>): (r: seq<Option<real>>)
    ensures |r| == |values|
    ensures forall k :: 0 <= k < |r| ==> r[k].Some? && 0.0 <= r[k].value < |Classes(values)| as real
  {
    var codes := Encode(values);
    seq(|values|, k requires 0 <= k < |values| => Some(codes[k] as real))
  }

  // ---------------------------------------------------------------- the blocks

  /** One block of feature_engineering: each writes one column when its source
      columns exist. The bust size block is split into its three writes. */
  datatype Step =
    | FullReviewStep
    | FitStep
    | WeightStep
    | HeightStep
    | BmiStep
    | BandStep
    | CupStep
    | CupMapStep
    | CupFillStep
    | LabelStep(feature: string)

  /** The column a block writes. */
  function Target(s: Step): string {
    match s
    case FullReviewStep => "full_review"
    case FitStep => "fit_encoded"
    case WeightStep => "weight"
    case HeightStep => "height"
    case BmiStep => "BMI"
    case BandStep => "bust_band"
    case CupStep => "bust_cup"
    case CupMapStep => "bust_cup_encoded"
    case CupFillStep => "bust_cup_encoded"
    case LabelStep(feature) => EncodedName(feature)
  }

  /** The `in df.columns` guard of a block. */
  predicate Applies(f: Frame, s: Step) {
    match s
    case FullReviewStep => Has(f, "review_text") && Has(f, "review_summary")
    case FitStep => Has(f, "fit")
    case WeightStep => Has(f, "weight")
    case HeightStep => Has(f, "height")
    case BmiStep => Has(f, "height") && Has(f, "weight")
    case BandStep => Has(f, "bust size")
    case CupStep => Has(f, "bust size")
    case CupMapStep => Has(f, "bust size")
    case CupFillStep => Has(f, "bust_cup_encoded")
    case LabelStep(feature) => Has(f, feature)
  }

  /** The column a block writes, computed row by row from the frame before it. */
  function NewCells(f: Frame, s: Step, show: real -> string): (c: Cells)
    requires WellFormed(f)
    ensures Len(c) == f.rows
  {
    match s
    case FullReviewStep =>
      var summary, text := TextColumn(f, "review_summary"), TextColumn(f, "review_text");
      Texts(seq(f.rows, k requires 0 <= k < f.rows => Some(FullReview(summary[k], text[k]))))
    case FitStep =>
      var fit := TextColumn(f, "fit");
      Nums(seq(f.rows, k requires 0 <= k < f.rows => FitCode(fit[k])))
    case WeightStep =>
      Nums(WeightCells(CellsOf(f, "weight")))
    case HeightStep =>
      var h := TextColumn(f, "height");
      Nums(seq(f.rows, k requires 0 <= k < f.rows => AsReal(ConvertHeight(h[k]))))
    case BmiStep =>
      var h, w := NumColumn(f, "height"), NumColumn(f, "weight");
      Nums(seq(f.rows, k requires 0 <= k < f.rows => Bmi(h[k], w[k])))
    case BandStep =>
      var b := TextColumn(f, "bust size");
      Nums(seq(f.rows, k requires 0 <= k < f.rows => AsReal(BustBand(b[k]))))
    case CupStep =>
      var b := TextColumn(f, "bust size");
      Texts(seq(f.rows, k requires 0 <= k < f.rows => BustCup(b[k])))
    case CupMapStep =>
      var cups := TextColumn(f, "bust_cup");
      Nums(seq(f.rows, k requires 0 <= k < f.rows => CupLookup(cups[k])))
    case CupFillStep =>
      Nums(Cleaning.FillMissing(NumColumn(f, "bust_cup_encoded"), 0.0))
    case LabelStep(feature) =>
      Nums(Codes(LabelTexts(CellsOf(f, feature), show)))
  }

  /** One block: df[target] = new cells when the guard holds, otherwise nothing. */
  function Apply(f: Frame, s: Step, show: real -> string): (r: Frame)
    requires WellFormed(f)
    ensures WellFormed(r) && r.rows == f.rows
    ensures Applies(f, s) ==> Find(r, Target(s)) == Some(Column(Target(s), NewCells(f, s, show)))
    ensures !Applies(f, s) ==> r == f
  {
    if Applies(f, s) then Put(f, Target(s), NewCells(f, s, show)) else f
  }

  /** A block leaves every column but its target as it was. */
  lemma ApplyOthers(f: Frame, s: Step, show: real -> string, m: string)
    requires WellFormed(f) && m != Target(s)
    ensures Find(Apply(f, s, show), m) == Find(f, m)
  {
    if Applies(f, s) {
      PutOthers(f, Target(s), NewCells(f, s, show), m);
    }
  }

  /** The blocks run in order. */
  function Run(f: Frame, steps: seq<Step>, show: real -> string): (r: Frame)
    requires WellFormed(f)
    ensures WellFormed(r) && r.rows == f.rows
    decreases |steps|
  {
    if |steps| == 0 then f else Run(Apply(f, steps[0], show), steps[1..], show)
  }

  /** Blocks leave every column none of them targets as it was. */
  lemma {:induction false} RunOthers(f: Frame, steps: seq<Step>, show: real -> string, m: string)
    requires WellFormed(f)
    requires forall i :: 0 <= i < |steps| ==> m != Target(steps[i])
    ensures Find(Run(f, steps, show), m) == Find(f, m)
    decreases |steps|
  {
    if |steps| > 0 {
      ApplyOthers(f, steps[0], show, m);
      RunOthers(Apply(f, steps[0], show), steps[1..], show, m);
    }
  }

  /** Running two lists of blocks one after the other is running their concatenation. */
  lemma {:induction false} RunSplit(f: Frame, a: seq<Step>, b: seq<Step>, show: real -> string)
    requires WellFormed(f)
    ensures Run(f, a + b, show) == Run(Run(f, a, show), b, show)
    decreases |a|
  {
    if |a| > 0 {
      assert (a + b)[1..] == a[1..] + b;
      RunSplit(Apply(f, a[0], show), a[1..], b, show);
    } else {
      assert a + b == b;
    }
  }

  // ---------------------------------------------------------------- the whole step

  /** The blocks of feature_engineering, in source order. */
  const Steps: seq<Step> :=
    [FullReviewStep, FitStep, WeightStep, HeightStep, BmiStep, BandStep, CupStep, CupMapStep,
     CupFillStep, LabelStep("body type"), LabelStep("rented for"), LabelStep("category")]

  /** DataProcessor.feature_engineering; `show` renders a number as astype(str) does. */
  function Engineer(f: Frame, show: real -> string): (r: Frame)
    requires WellFormed(f)
    ensures WellFormed(r) && r.rows == f.rows
  {
    Run(f, Steps, show)
  }

  /** The frame after the first n blocks. */
  function After(f: Frame, n: nat, show: real -> string): (r: Frame)
    requires WellFormed(f) && n <= |Steps|
    ensures WellFormed(r) && r.rows == f.rows
  {
    Run(f, Steps[..n], show)
  }

  /** Block n runs on the frame the blocks before it produced. */
  lemma AfterNext(f: Frame, n: nat, s: Step, show: real -> string)
    requires WellFormed(f) && n < |Steps| && Steps[n] == s
    ensures After(f, n + 1, show) == Apply(After(f, n, show), s, show)
  {
    assert Steps[..n + 1] == Steps[..n] + [Steps[n]];
    RunSplit(f, Steps[..n], [Steps[n]], show);
    assert [Steps[n]][1..] == [];
  }

  /** Feature engineering is the first n blocks followed by the rest. */
  lemma EngineerSplit(f: Frame, n: nat, show: real -> string)
    requires WellFormed(f) && n <= |Steps|
    ensures Engineer(f, show) == Run(After(f, n, show), Steps[n..], show)
  {
    assert Steps == Steps[..n] + Steps[n..];
    RunSplit(f, Steps[..n], Steps[n..], show);
  }

  /** Every column feature_engineering may write. */
  const Written: set<string> :=
    {"full_review", "fit_encoded", "weight", "height", "BMI", "bust_band", "bust_cup",
     "bust_cup_encoded", "body type_encoded", "rented for_encoded", "category_encoded"}

  lemma TargetsWritten(i: nat)
    requires i < |Steps|
    ensures Target(Steps[i]) in Written
  {
    EncodedNames();
  }

  /** Feature engineering leaves every column it does not write as it was. */
  lemma EngineerOthers(f: Frame, show: real -> string, m: string)
    requires WellFormed(f) && m !in Written
    ensures Find(Engineer(f, show), m) == Find(f, m)
  {
    forall i | 0 <= i < |Steps| ensures m != Target(Steps[i]) {
      TargetsWritten(i);
    }
    RunOthers(f, Steps, show, m);
  }

  /** No block from lo up to (not including) hi writes m. */
  predicate Untouched(lo: nat, hi: nat, m: string)
    requires hi <= |Steps|
  {
    forall i :: lo <= i < hi ==> Target(Steps[i]) != m
  }

  /** Columns no block before n writes are as they were in the input. */
  lemma Before(f: Frame, show: real -> string, n: nat, m: string)
    requires WellFormed(f) && n <= |Steps| && Untouched(0, n, m)
    ensures Find(After(f, n, show), m) == Find(f, m)
  {
    RunOthers(f, Steps[..n], show, m);
  }

  /** A column no block from n on writes is the same in the output as after
      the first n blocks. */
  lemma Final(f: Frame, show: real -> string, n: nat, m: string)
    requires WellFormed(f) && n <= |Steps| && Untouched(n, |Steps|, m)
    ensures Find(Engineer(f, show), m) == Find(After(f, n, show), m)
  {
    EngineerSplit(f, n, show);
    RunOthers(After(f, n, show), Steps[n..], show, m);
  }

  /** The column block n writes, when no other block writes it: it exists in the
      output exactly when it existed in the input or the block's guard held, and
      when the guard held it holds the block's cells. */
  lemma Written1(f: Frame, show: real -> string, n: nat, s: Step)
    requires WellFormed(f) && n < |Steps| && Steps[n] == s
    requires Untouched(0, n, Target(s)) && Untouched(n + 1, |Steps|, Target(s))
    ensures var r := Engineer(f, show);
      var g := After(f, n, show);
      && (Has(r, Target(s)) <==> Has(f, Target(s)) || Applies(g, s))
      && (Applies(g, s) ==> Find(r, Target(s)) == Some(Column(Target(s), NewCells(g, s, show))))
  {
    var t := Target(s);
    Before(f, show, n, t);
    AfterNext(f, n, s, show);
    Final(f, show, n + 1, t);
  }

  /** The blocks in order, and which columns each leaves alone. */
  lemma Layout()
    ensures |Steps| == 12
    ensures Steps[0] == FullReviewStep && Steps[1] == FitStep && Steps[2] == WeightStep
    ensures Steps[3] == HeightStep && Steps[4] == BmiStep && Steps[5] == BandStep
    ensures Steps[6] == CupStep && Steps[7] == CupMapStep && Steps[8] == CupFillStep
    ensures Steps[9] == LabelStep("body type") && Steps[10] == LabelStep("rented for")
    ensures Steps[11] == LabelStep("category")
  {
  }

  lemma TextLayout()
    ensures Untouched(1, 12, "full_review")
    ensures Untouched(0, 1, "fit") && Untouched(0, 1, "fit_encoded") && Untouched(2, 12, "fit_encoded")
  {
    EncodedNames();
  }

  lemma MeasureLayout()
    ensures Untouched(0, 2, "weight") && Untouched(3, 12, "weight")
    ensures Untouched(0, 3, "height") && Untouched(4, 12, "height")
    ensures Untouched(0, 4, "BMI") && Untouched(5, 12, "BMI")
    ensures Steps[2] == WeightStep && Steps[3] == HeightStep && Steps[4] == BmiStep
  {
    EncodedNames();
  }

  lemma BustLayout()
    ensures Untouched(0, 7, "bust size")
    ensures Untouched(0, 5, "bust_band") && Untouched(6, 12, "bust_band")
    ensures Untouched(0, 6, "bust_cup") && Untouched(7, 12, "bust_cup")
    ensures Untouched(9, 12, "bust_cup_encoded")
    ensures Steps[5] == BandStep && Steps[6] == CupStep && Steps[7] == CupMapStep && Steps[8] == CupFillStep
  {
    EncodedNames();
  }

  lemma LabelLayout(i: nat)
    requires i < |Categorical|
    ensures Untouched(0, 9 + i, Categorical[i])
    ensures Untouched(0, 9 + i, EncodedName(Categorical[i])) && Untouched(10 + i, 12, EncodedName(Categorical[i]))
  {
    EncodedNames();
  }

  /** full_review exists after feature engineering exactly when it existed or both
      review_text and review_summary exist, and then each row joins that row's
      summary and text. */
  lemma EngineeredFullReview(f: Frame, show: real -> string, k: nat)
    requires WellFormed(f) && k < f.rows
    ensures var r := Engineer(f, show);
      && (Has(r, "full_review") <==> Has(f, "full_review") || (Has(f, "review_text") && Has(f, "review_summary")))
      && (Has(f, "review_text") && Has(f, "review_summary") ==>
            && Find(r, "full_review").value.cells.Texts?
            && TextColumn(r, "full_review")[k] ==
                 Some(FullReview(TextColumn(f, "review_summary")[k], TextColumn(f, "review_text")[k])))
  {
    TextLayout();
    Written1(f, show, 0, FullReviewStep);
  }

  /** fit_encoded exists after feature engineering exactly when it existed or fit
      exists, and then each row is the code of that row's fit. */
  lemma EngineeredFit(f: Frame, show: real -> string, k: nat)
    requires WellFormed(f) && k < f.rows
    ensures var r := Engineer(f, show);
      && (Has(r, "fit_encoded") <==> Has(f, "fit_encoded") || Has(f, "fit"))
      && (Has(f, "fit") ==>
            IsNumeric(r, "fit_encoded") && NumColumn(r, "fit_encoded")[k] == FitCode(TextColumn(f, "fit")[k]))
  {
    TextLayout();
    Before(f, show, 1, "fit");
    Written1(f, show, 1, FitStep);
    FitLink(f, After(f, 1, show), Engineer(f, show), show, k);
  }

  lemma FitLink(f: Frame, g: Frame, r: Frame, show: real -> string, k: nat)
    requires WellFormed(f) && WellFormed(g) && WellFormed(r)
    requires g.rows == f.rows && r.rows == f.rows && k < f.rows
    requires Find(g, "fit") == Find(f, "fit")
    requires Has(r, "fit_encoded") <==> Has(f, "fit_encoded") || Applies(g, FitStep)
    requires Applies(g, FitStep) ==> Find(r, "fit_encoded") == Some(Column("fit_encoded", NewCells(g, FitStep, show)))
    ensures Has(r, "fit_encoded") <==> Has(f, "fit_encoded") || Has(f, "fit")
    ensures Has(f, "fit") ==>
      IsNumeric(r, "fit_encoded") && NumColumn(r, "fit_encoded")[k] == FitCode(TextColumn(f, "fit")[k])
  {
  }

  /** The weight column after feature engineering is the parsed input column. */
  lemma EngineeredWeight(f: Frame, show: real -> string)
    requires WellFormed(f)
    ensures var r := Engineer(f, show);
      && (Has(r, "weight") <==> Has(f, "weight"))
      && (Has(f, "weight") ==> IsNumeric(r, "weight") && NumColumn(r, "weight") == WeightCells(CellsOf(f, "weight")))
  {
    MeasureLayout();
    Before(f, show, 2, "weight");
    Written1(f, show, 2, WeightStep);
    WeightLink(f, After(f, 2, show), Engineer(f, show), show);
  }

  lemma WeightLink(f: Frame, g: Frame, r: Frame, show: real -> string)
    requires WellFormed(f) && WellFormed(g) && WellFormed(r)
    requires g.rows == f.rows && r.rows == f.rows
    requires Find(g, "weight") == Find(f, "weight")
    requires Has(r, "weight") <==> Has(f, "weight") || Applies(g, WeightStep)
    requires Applies(g, WeightStep) ==> Find(r, "weight") == Some(Column("weight", NewCells(g, WeightStep, show)))
    ensures Has(r, "weight") <==> Has(f, "weight")
    ensures Has(f, "weight") ==> IsNumeric(r, "weight") && NumColumn(r, "weight") == WeightCells(CellsOf(f, "weight"))
  {
  }

  /** The height column after feature engineering is the converted input column. */
  lemma EngineeredHeight(f: Frame, show: real -> string, k: nat)
    requires WellFormed(f) && k < f.rows
    ensures var r := Engineer(f, show);
      && (Has(r, "height") <==> Has(f, "height"))
      && (Has(f, "height") ==>
            IsNumeric(r, "height") && NumColumn(r, "height")[k] == AsReal(ConvertHeight(TextColumn(f, "height")[k])))
  {
    MeasureLayout();
    Before(f, show, 3, "height");
    Written1(f, show, 3, HeightStep);
    HeightLink(f, After(f, 3, show), Engineer(f, show), show, k);
  }

  lemma HeightLink(f: Frame, g: Frame, r: Frame, show: real -> string, k: nat)
    requires WellFormed(f) && WellFormed(g) && WellFormed(r)
    requires g.rows == f.rows && r.rows == f.rows && k < f.rows
    requires Find(g, "height") == Find(f, "height")
    requires Has(r, "height") <==> Has(f, "height") || Applies(g, HeightStep)
    requires Applies(g, HeightStep) ==> Find(r, "height") == Some(Column("height", NewCells(g, HeightStep, show)))
    ensures Has(r, "height") <==> Has(f, "height")
    ensures Has(f, "height") ==>
      IsNumeric(r, "height") && NumColumn(r, "height")[k] == AsReal(ConvertHeight(TextColumn(f, "height")[k]))
  {
  }

  /** The height and weight the BMI block reads are the converted and parsed
      input columns. */
  lemma MeasuresBeforeBmi(f: Frame, show: real -> string, k: nat)
    requires WellFormed(f) && k < f.rows
    ensures var g := After(f, 4, show);
      && (Has(g, "height") <==> Has(f, "height"))
      && (Has(g, "weight") <==> Has(f, "weight"))
      && (Has(f, "height") ==> NumColumn(g, "height")[k] == AsReal(ConvertHeight(TextColumn(f, "height")[k])))
      && (Has(f, "weight") ==> NumColumn(g, "weight") == WeightCells(CellsOf(f, "weight")))
  {
    MeasureLayout();
    Before(f, show, 2, "weight");
    Before(f, show, 3, "height");
    AfterNext(f, 2, WeightStep, show);
    AfterNext(f, 3, HeightStep, show);
    ApplyOthers(After(f, 2, show), WeightStep, show, "height");
    ApplyOthers(After(f, 3, show), HeightStep, show, "weight");
    MeasuresLink(f, After(f, 2, show), After(f, 3, show), After(f, 4, show), show, k);
  }

  lemma MeasuresLink(f: Frame, g2: Frame, g3: Frame, g4: Frame, show: real -> string, k: nat)
    requires WellFormed(f) && WellFormed(g2) && WellFormed(g3) && WellFormed(g4)
    requires g2.rows == f.rows && g3.rows == f.rows && g4.rows == f.rows && k < f.rows
    requires Find(g2, "weight") == Find(f, "weight") && Find(g3, "height") == Find(f, "height")
    requires g3 == Apply(g2, WeightStep, show) && g4 == Apply(g3, HeightStep, show)
    requires Find(g4, "weight") == Find(g3, "weight")
    ensures Has(g4, "height") <==> Has(f, "height")
    ensures Has(g4, "weight") <==> Has(f, "weight")
    ensures Has(f, "height") ==> NumColumn(g4, "height")[k] == AsReal(ConvertHeight(TextColumn(f, "height")[k]))
    ensures Has(f, "weight") ==> NumColumn(g4, "weight") == WeightCells(CellsOf(f, "weight"))
  {
  }

  /** BMI exists after feature engineering exactly when it existed or both height
      and weight exist, and then each row is computed from that row's converted
      height and parsed weight. */
  lemma EngineeredBmi(f: Frame, show: real -> string, k: nat)
    requires WellFormed(f) && k < f.rows
    ensures var r := Engineer(f, show);
      && (Has(r, "BMI") <==> Has(f, "BMI") || (Has(f, "height") && Has(f, "weight")))
      && (Has(f, "height") && Has(f, "weight") ==>
            && IsNumeric(r, "BMI")
            && NumColumn(r, "BMI")[k] ==
                 Bmi(AsReal(ConvertHeight(TextColumn(f, "height")[k])), WeightCells(CellsOf(f, "weight"))[k]))
  {
    MeasureLayout();
    MeasuresBeforeBmi(f, show, k);
    Written1(f, show, 4, BmiStep);
    BmiLink(f, After(f, 4, show), Engineer(f, show), show, k);
  }

  lemma BmiLink(f: Frame, g: Frame, r: Frame, show: real -> string, k: nat)
    requires WellFormed(f) && WellFormed(g) && WellFormed(r)
    requires g.rows == f.rows && r.rows == f.rows && k < f.rows
    requires Has(g, "height") <==> Has(f, "height")
    requires Has(g, "weight") <==> Has(f, "weight")
    requires Has(f, "height") ==> NumColumn(g, "height")[k] == AsReal(ConvertHeight(TextColumn(f, "height")[k]))
    requires Has(f, "weight") ==> NumColumn(g, "weight") == WeightCells(CellsOf(f, "weight"))
    requires Has(r, "BMI") <==> Has(f, "BMI") || Applies(g, BmiStep)
    requires Applies(g, BmiStep) ==> Find(r, "BMI") == Some(Column("BMI", NewCells(g, BmiStep, show)))
    ensures Has(r, "BMI") <==> Has(f, "BMI") || (Has(f, "height") && Has(f, "weight"))
    ensures Has(f, "height") && Has(f, "weight") ==>
      && IsNumeric(r, "BMI")
      && NumColumn(r, "BMI")[k] ==
           Bmi(AsReal(ConvertHeight(TextColumn(f, "height")[k])), WeightCells(CellsOf(f, "weight"))[k])
  {
  }

  /** The cups the mapping block reads are the cups of the input's bust sizes. */
  lemma CupsBeforeMap(f: Frame, show: real -> string, k: nat)
    requires WellFormed(f) && Has(f, "bust size") && k < f.rows
    ensures var g := After(f, 7, show);
      && Applies(g, CupMapStep)
      && TextColumn(g, "bust_cup")[k] == BustCup(TextColumn(f, "bust size")[k])
  {
    BustLayout();
    Before(f, show, 6, "bust size");
    Before(f, show, 7, "bust size");
    AfterNext(f, 6, CupStep, show);
    CupsLink(f, After(f, 6, show), After(f, 7, show), show, k);
  }

  lemma CupsLink(f: Frame, g6: Frame, g7: Frame, show: real -> string, k: nat)
    requires WellFormed(f) && WellFormed(g6) && WellFormed(g7) && Has(f, "bust size")
    requires g6.rows == f.rows && g7.rows == f.rows && k < f.rows
    requires Find(g6, "bust size") == Find(f, "bust size") && Find(g7, "bust size") == Find(f, "bust size")
    requires g7 == Apply(g6, CupStep, show)
    ensures Applies(g7, CupMapStep)
    ensures TextColumn(g7, "bust_cup")[k] == BustCup(TextColumn(f, "bust size")[k])
  {
  }

  /** The filled cup code of each row is the cup code of that row's bust size. */
  lemma CupCodeAfterFill(f: Frame, show: real -> string, k: nat)
    requires WellFormed(f) && Has(f, "bust size") && k < f.rows
    ensures var g := After(f, 9, show);
      && IsNumeric(g, "bust_cup_encoded")
      && NumColumn(g, "bust_cup_encoded")[k] == Some(CupCode(BustCup(TextColumn(f, "bust size")[k])))
  {
    CupsBeforeMap(f, show, k);
    AfterNext(f, 7, CupMapStep, show);
    AfterNext(f, 8, CupFillStep, show);
    CupFillLink(f, After(f, 7, show), After(f, 8, show), After(f, 9, show), show, k);
  }

  lemma CupFillLink(f: Frame, g7: Frame, g8: Frame, g9: Frame, show: real -> string, k: nat)
    requires WellFormed(f) && WellFormed(g7) && WellFormed(g8) && WellFormed(g9)
    requires g7.rows == f.rows && g8.rows == f.rows && g9.rows == f.rows && k < f.rows
    requires Applies(g7, CupMapStep)
    requires TextColumn(g7, "bust_cup")[k] == BustCup(TextColumn(f, "bust size")[k])
    requires g8 == Apply(g7, CupMapStep, show) && g9 == Apply(g8, CupFillStep, show)
    ensures IsNumeric(g9, "bust_cup_encoded")
    ensures NumColumn(g9, "bust_cup_encoded")[k] == Some(CupCode(BustCup(TextColumn(f, "bust size")[k])))
  {
  }

  /** With bust size present, each row's bust band, cup and cup code come from
      that row's bust size, and the cup code is never missing. */
  lemma EngineeredBust(f: Frame, show: real -> string, k: nat)
    requires WellFormed(f) && Has(f, "bust size") && k < f.rows
    ensures var r := Engineer(f, show);
      var b := TextColumn(f, "bust size")[k];
      && NumColumn(r, "bust_band")[k] == AsReal(BustBand(b))
      && TextColumn(r, "bust_cup")[k] == BustCup(b)
      && IsNumeric(r, "bust_cup_encoded")
      && NumColumn(r, "bust_cup_encoded")[k] == Some(CupCode(BustCup(b)))
  {
    BustLayout();
    Before(f, show, 5, "bust size");
    Before(f, show, 6, "bust size");
    Written1(f, show, 5, BandStep);
    Written1(f, show, 6, CupStep);
    CupCodeAfterFill(f, show, k);
    Final(f, show, 9, "bust_cup_encoded");
    BustLink(f, After(f, 5, show), After(f, 6, show), After(f, 9, show), Engineer(f, show), show, k);
  }

  lemma BustLink(f: Frame, g5: Frame, g6: Frame, g9: Frame, r: Frame, show: real -> string, k: nat)
    requires WellFormed(f) && WellFormed(g5) && WellFormed(g6) && WellFormed(g9) && WellFormed(r)
    requires g5.rows == f.rows && g6.rows == f.rows && g9.rows == f.rows && r.rows == f.rows
    requires k < f.rows && Has(f, "bust size")
    requires Find(g5, "bust size") == Find(f, "bust size") && Find(g6, "bust size") == Find(f, "bust size")
    requires Applies(g5, BandStep) ==> Find(r, "bust_band") == Some(Column("bust_band", NewCells(g5, BandStep, show)))
    requires Applies(g6, CupStep) ==> Find(r, "bust_cup") == Some(Column("bust_cup", NewCells(g6, CupStep, show)))
    requires IsNumeric(g9, "bust_cup_encoded")
    requires NumColumn(g9, "bust_cup_encoded")[k] == Some(CupCode(BustCup(TextColumn(f, "bust size")[k])))
    requires Find(r, "bust_cup_encoded") == Find(g9, "bust_cup_encoded")
    ensures var b := TextColumn(f, "bust size")[k];
      && NumColumn(r, "bust_band")[k] == AsReal(BustBand(b))
      && TextColumn(r, "bust_cup")[k] == BustCup(b)
      && IsNumeric(r, "bust_cup_encoded")
      && NumColumn(r, "bust_cup_encoded")[k] == Some(CupCode(BustCup(b)))
  {
    BandCellLink(f, g5, r, show, k);
    CupCellLink(f, g6, r, show, k);
  }

  lemma BandCellLink(f: Frame, g5: Frame, r: Frame, show: real -> string, k: nat)
    requires WellFormed(f) && WellFormed(g5) && WellFormed(r)
    requires g5.rows == f.rows && r.rows == f.rows
    requires k < f.rows && Has(f, "bust size")
    requires Find(g5, "bust size") == Find(f, "bust size")
    requires Applies(g5, BandStep) ==> Find(r, "bust_band") == Some(Column("bust_band", NewCells(g5, BandStep, show)))
    ensures NumColumn(r, "bust_band")[k] == AsReal(BustBand(TextColumn(f, "bust size")[k]))
  {
    assert TextColumn(g5, "bust size") == TextColumn(f, "bust size");
  }

  lemma CupCellLink(f: Frame, g6: Frame, r: Frame, show: real -> string, k: nat)
    requires WellFormed(f) && WellFormed(g6) && WellFormed(r)
    requires g6.rows == f.rows && r.rows == f.rows
    requires k < f.rows && Has(f, "bust size")
    requires Find(g6, "bust size") == Find(f, "bust size")
    requires Applies(g6, CupStep) ==> Find(r, "bust_cup") == Some(Column("bust_cup", NewCells(g6, CupStep, show)))
    ensures TextColumn(r, "bust_cup")[k] == BustCup(TextColumn(f, "bust size")[k])
  {
    assert TextColumn(g6, "bust size") == TextColumn(f, "bust size");
  }

  /** Wherever bust_cup_encoded exists after feature engineering, none of its
      rows is missing. */
  lemma EngineeredCupComplete(f: Frame, show: real -> string, k: nat)
    requires WellFormed(f) && k < f.rows
    ensures var r := Engineer(f, show);
      Has(r, "bust_cup_encoded") ==> NumColumn(r, "bust_cup_encoded")[k].Some?
  {
    BustLayout();
    AfterNext(f, 8, CupFillStep, show);
    Final(f, show, 9, "bust_cup_encoded");
    CupCompleteLink(After(f, 8, show), After(f, 9, show), Engineer(f, show), show, k);
  }

  lemma CupCompleteLink(g8: Frame, g9: Frame, r: Frame, show: real -> string, k: nat)
    requires WellFormed(g8) && WellFormed(g9) && WellFormed(r)
    requires g9.rows == g8.rows && r.rows == g8.rows && k < g8.rows
    requires g9 == Apply(g8, CupFillStep, show)
    requires Find(r, "bust_cup_encoded") == Find(g9, "bust_cup_encoded")
    ensures Has(r, "bust_cup_encoded") ==> NumColumn(r, "bust_cup_encoded")[k].Some?
  {
  }

  /** Each encoded categorical column exists after feature engineering exactly
      when it existed or its feature exists, and then holds the label codes of
      the feature. */
  lemma EngineeredLabels(f: Frame, show: real -> string, i: nat)
    requires WellFormed(f) && i < |Categorical|
    ensures var r := Engineer(f, show);
      var name := EncodedName(Categorical[i]);
      && (Has(r, name) <==> Has(f, name) || Has(f, Categorical[i]))
      && (Has(f, Categorical[i]) ==>
            IsNumeric(r, name) && NumColumn(r, name) == Codes(LabelTexts(CellsOf(f, Categorical[i]), show)))
  {
    LabelLayout(i);
    var feature := Categorical[i];
    assert Steps[9 + i] == LabelStep(feature);
    Before(f, show, 9 + i, feature);
    Written1(f, show, 9 + i, LabelStep(feature));
    LabelLink(f, After(f, 9 + i, show), Engineer(f, show), feature, show);
  }

  lemma LabelLink(f: Frame, g: Frame, r: Frame, feature: string, show: real -> string)
    requires WellFormed(f) && WellFormed(g) && WellFormed(r)
    requires g.rows == f.rows && r.rows == f.rows
    requires Find(g, feature) == Find(f, feature)
    requires Has(r, EncodedName(feature)) <==> Has(f, EncodedName(feature)) || Applies(g, LabelStep(feature))
    requires Applies(g, LabelStep(feature)) ==>
      Find(r, EncodedName(feature)) == Some(Column(EncodedName(feature), NewCells(g, LabelStep(feature), show)))
    ensures Has(r, EncodedName(feature)) <==> Has(f, EncodedName(feature)) || Has(f, feature)
    ensures Has(f, feature) ==>
      IsNumeric(r, EncodedName(feature)) && NumColumn(r, EncodedName(feature)) == Codes(LabelTexts(CellsOf(f, feature), show))
  {
  }
}
