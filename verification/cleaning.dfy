/** DataProcessor.clean_data (src/data_processing.py): drop sparse columns,
    impute the rest, and clean the review text. */
module Cleaning {
  import opened Wrappers
  import opened Seqs
  import opened TextCleaner
  import opened Frames

  /** dropna(thresh=len(df)*0.5, axis=1) keeps a column whose count of present
      cells is at least thresh. */
  predicate MeetsThreshold(c: Column, rows: nat) {
    PresentCount(c.cells) as real >= rows as real * 0.5
  }

  /** Drops every column with fewer present cells than half the rows; a column
      exactly half present is kept. */
  function Prune(f: Frame): (r: Frame)
    requires WellFormed(f)
    ensures WellFormed(r) && r.rows == f.rows
    ensures IsSubsequence(r.columns, f.columns)
    ensures forall i :: 0 <= i < |r.columns| ==>
              r.columns[i] in f.columns && 2 * PresentCount(r.columns[i].cells) >= f.rows
    ensures forall i :: 0 <= i < |f.columns| && 2 * PresentCount(f.columns[i].cells) >= f.rows ==>
              f.columns[i] in r.columns
  {
    var cols := Filter(f.columns, (c: Column) => MeetsThreshold(c, f.rows));
    SubsequenceDistinctBy(cols, f.columns, NameOf);
    Frame(f.rows, cols)
  }

  /** Every cell is present. */
  predicate Complete(c: Cells) {
    match c
    case Texts(t) => forall k :: 0 <= k < |t| ==> t[k].Some?
    case Nums(n) => forall k :: 0 <= k < |n| ==> n[k].Some?
  }

  /** fillna(v): present cells are kept, missing ones become v. */
  function FillMissing<T>(s: seq<Option<T>>, v: T): (r: seq<Option<T>>)
    ensures |r| == |s|
    ensures forall k :: 0 <= k < |r| ==> r[k].Some? && (s[k].Some? ==> r[k] == s[k]) && (s[k].None? ==> r[k] == Some(v))
  {
    seq(|s|, k requires 0 <= k < |s| => if s[k].Some? then s[k] else Some(v))
  }

  /** SimpleImputer on one column: most frequent value for text columns, median
      for numeric ones; the fill values themselves are supplied by the caller. */
  function ImputeCells(c: Cells, mostFrequent: seq<Option<string>> -> string,
                       median: seq<Option<real>> -> real): (r: Cells)
    ensures Len(r) == Len(c) && Complete(r)
    ensures c.Texts? <==> r.Texts?
    ensures c.Texts? ==> forall k :: 0 <= k < |c.texts| ==>
              r.texts[k] == (if c.texts[k].Some? then c.texts[k] else Some(mostFrequent(c.texts)))
    ensures c.Nums? ==> forall k :: 0 <= k < |c.nums| ==>
              r.nums[k] == (if c.nums[k].Some? then c.nums[k] else Some(median(c.nums)))
  {
    match c
    case Texts(t) => Texts(FillMissing(t, mostFrequent(t)))
    case Nums(n) => Nums(FillMissing(n, median(n)))
  }

  /** Categorical then numeric imputation: column names, order and kinds are
      unchanged, present cells keep their values and no cell is missing after. */
  function Impute(f: Frame, mostFrequent: seq<Option<string>> -> string,
                  median: seq<Option<real>> -> real): (r: Frame)
    requires WellFormed(f)
    ensures WellFormed(r) && r.rows == f.rows && Names(r) == Names(f)
    ensures forall i :: 0 <= i < |r.columns| ==> Complete(r.columns[i].cells)
    ensures forall i :: 0 <= i < |f.columns| ==>
              r.columns[i].cells == ImputeCells(f.columns[i].cells, mostFrequent, median)
  {
    var cols := seq(|f.columns|, i requires 0 <= i < |f.columns| =>
      Column(f.columns[i].name, ImputeCells(f.columns[i].cells, mostFrequent, median)));
    assert forall i :: 0 <= i < |cols| ==> NameOf(cols[i]) == NameOf(f.columns[i]);
    Frame(f.rows, cols)
  }

  /** df["review_text"] = df["review_text"].fillna("").apply(clean_text), when
      the column exists. */
  function CleanReviewText(f: Frame): (r: Frame)
    requires WellFormed(f)
    ensures WellFormed(r) && r.rows == f.rows && Names(r) == Names(f)
    ensures !Has(f, "review_text") ==> r == f
    ensures forall n :: n != "review_text" ==> Find(r, n) == Find(f, n)
    ensures Has(f, "review_text") ==>
              && Has(r, "review_text")
              && Find(r, "review_text").value.cells.Texts?
              && forall k :: 0 <= k < f.rows ==>
                   TextColumn(r, "review_text")[k] == Some(CleanText(TextColumn(f, "review_text")[k]))
  {
    if Has(f, "review_text") then
      var raw := TextColumn(f, "review_text");
      var cells := Texts(seq(f.rows, k requires 0 <= k < f.rows => Some(CleanText(raw[k]))));
      PutNames(f, "review_text", cells);
      PutOthersAll(f, "review_text", cells);
      Put(f, "review_text", cells)
    else f
  }

  /** clean_data: pruning, imputation, review-text cleaning. */
  function CleanData(f: Frame, mostFrequent: seq<Option<string>> -> string,
                     median: seq<Option<real>> -> real): (r: Frame)
    requires WellFormed(f)
    ensures WellFormed(r) && r.rows == f.rows
  {
    CleanReviewText(Impute(Prune(f), mostFrequent, median))
  }

  /** Pruning keeps a column exactly when at least half its cells are present. */
  lemma PruneHas(f: Frame, i: nat)
    requires WellFormed(f) && i < |f.columns|
    ensures Has(Prune(f), f.columns[i].name) <==> 2 * PresentCount(f.columns[i].cells) >= f.rows
  {
    var p := Prune(f);
    var n := f.columns[i].name;
    if 2 * PresentCount(f.columns[i].cells) >= f.rows {
      var j :| 0 <= j < |p.columns| && p.columns[j] == f.columns[i];
      FindUnique(p, j);
    } else {
      forall j | 0 <= j < |p.columns| ensures p.columns[j].name != n {
        var i' :| 0 <= i' < |f.columns| && f.columns[i'] == p.columns[j];
        if i' != i {
          assert NameOf(f.columns[i]) != NameOf(f.columns[i']);
        }
      }
    }
  }

  /** Every column left by pruning was in the input. */
  lemma PruneHasOnly(f: Frame, n: string)
    requires WellFormed(f) && Has(Prune(f), n)
    ensures Has(f, n)
  {
    var p := Prune(f);
    var c := Find(p, n).value;
    var j :| 0 <= j < |p.columns| && p.columns[j] == c;
    var i :| 0 <= i < |f.columns| && f.columns[i] == c;
    FindUnique(f, i);
  }

  /** After clean_data a column survives exactly when at least half its cells
      were present, and no cell of any column is missing. */
  lemma CleanDataShape(f: Frame, mostFrequent: seq<Option<string>> -> string,
                       median: seq<Option<real>> -> real)
    requires WellFormed(f)
    ensures var r := CleanData(f, mostFrequent, median);
      && (forall i :: 0 <= i < |f.columns| ==>
            (Has(r, f.columns[i].name) <==> 2 * PresentCount(f.columns[i].cells) >= f.rows))
      && (forall n :: Has(r, n) ==> Has(f, n))
      && (forall i :: 0 <= i < |r.columns| ==> Complete(r.columns[i].cells))
  {
    var p := Prune(f);
    var m := Impute(p, mostFrequent, median);
    var r := CleanReviewText(m);
    SameNamesSameColumns(p, r);
    forall i | 0 <= i < |f.columns|
      ensures Has(r, f.columns[i].name) <==> 2 * PresentCount(f.columns[i].cells) >= f.rows
    {
      PruneHas(f, i);
    }
    forall n | Has(r, n) ensures Has(f, n) {
      PruneHasOnly(f, n);
    }
    CleanedComplete(m);
  }

  lemma CleanedComplete(m: Frame)
    requires WellFormed(m)
    requires forall i :: 0 <= i < |m.columns| ==> Complete(m.columns[i].cells)
    ensures var r := CleanReviewText(m);
      forall i :: 0 <= i < |r.columns| ==> Complete(r.columns[i].cells)
  {
    var r := CleanReviewText(m);
    forall i | 0 <= i < |r.columns| ensures Complete(r.columns[i].cells) {
      var c := r.columns[i];
      FindUnique(r, i);
      if c.name == "review_text" && Has(m, "review_text") {
        forall k | 0 <= k < |c.cells.texts| ensures c.cells.texts[k].Some? {
          assert TextColumn(r, "review_text")[k] == c.cells.texts[k];
        }
      } else {
        assert Find(m, c.name) == Some(c);
        var j :| 0 <= j < |m.columns| && m.columns[j] == c;
      }
    }
  }
}
