/** A pandas DataFrame as the pipeline uses it: a number of rows and an ordered
    list of uniquely named columns, each either text ("object" dtype) or numeric,
    with explicit missing cells. */
module Frames {
  import opened Wrappers
  import opened Seqs

  datatype Cells = Texts(texts: seq<Option<string>>) | Nums(nums: seq<Option<real>>)

  datatype Column = Column(name: string, cells: Cells)

  datatype Frame = Frame(rows: nat, columns: seq<Column>)

  function Len(c: Cells): nat {
    match c
    case Texts(t) => |t|
    case Nums(n) => |n|
  }

  function NameOf(c: Column): string { c.name }

  predicate WellFormed(f: Frame) {
    && (forall i :: 0 <= i < |f.columns| ==> Len(f.columns[i].cells) == f.rows)
    && DistinctBy(f.columns, NameOf)
  }

  /** The number of non-missing cells (pandas' count()). */
  function PresentCount(c: Cells): nat {
    match c
    case Texts(t) => Count(t, (o: Option<string>) => o.Some?)
    case Nums(n) => Count(n, (o: Option<real>) => o.Some?)
  }

  /** The cells read as strings; a numeric cell reads as missing. */
  function TextView(c: Cells): (r: seq<Option<string>>)
    ensures |r| == Len(c)
  {
    match c
    case Texts(t) => t
    case Nums(n) => seq(|n|, _ => None)
  }

  /** The cells read as numbers; a text cell reads as missing. */
  function NumView(c: Cells): (r: seq<Option<real>>)
    ensures |r| == Len(c)
  {
    match c
    case Nums(n) => n
    case Texts(t) => seq(|t|, _ => None)
  }

  /** The column names, in frame order (df.columns). */
  function Names(f: Frame): (r: seq<string>)
    ensures |r| == |f.columns|
  {
    seq(|f.columns|, i requires 0 <= i < |f.columns| => f.columns[i].name)
  }

  function FindIn(cols: seq<Column>, n: string): (r: Option<Column>)
    ensures r.Some? ==> r.value in cols && r.value.name == n
    ensures r.None? ==> forall i :: 0 <= i < |cols| ==> cols[i].name != n
    decreases |cols|
  {
    if |cols| == 0 then None
    else if cols[0].name == n then Some(cols[0])
    else FindIn(cols[1..], n)
  }

  /** df[n], or None when the frame has no such column. */
  function Find(f: Frame, n: string): Option<Column> {
    FindIn(f.columns, n)
  }

  /** `n in df.columns` */
  predicate Has(f: Frame, n: string) {
    Find(f, n).Some?
  }

  /** The column names of a table are distinct. */
  lemma NamesDistinct(f: Frame)
    requires WellFormed(f)
    ensures Distinct(Names(f))
  {
    forall i, j | 0 <= i < j < |f.columns| ensures Names(f)[i] != Names(f)[j] {
      assert NameOf(f.columns[i]) != NameOf(f.columns[j]);
    }
  }

  lemma HasIsName(f: Frame, n: string)
    ensures Has(f, n) <==> n in Names(f)
  {
    if Has(f, n) {
      var i :| 0 <= i < |f.columns| && f.columns[i] == Find(f, n).value;
      assert Names(f)[i] == n;
    }
  }

  /** In a well-formed frame a column is found by its name. */
  lemma FindUnique(f: Frame, i: nat)
    requires WellFormed(f)
    requires i < |f.columns|
    ensures Find(f, f.columns[i].name) == Some(f.columns[i])
  {
    var c := Find(f, f.columns[i].name).value;
    var j :| 0 <= j < |f.columns| && f.columns[j] == c;
    assert NameOf(f.columns[i]) == NameOf(f.columns[j]);
  }

  function IndexOfName(cols: seq<Column>, n: string): (i: nat)
    requires FindIn(cols, n).Some?
    ensures i < |cols| && cols[i].name == n
    decreases |cols|
  {
    if cols[0].name == n then 0 else 1 + IndexOfName(cols[1..], n)
  }

  /** The column exists and has a numeric dtype. */
  predicate IsNumeric(f: Frame, n: string) {
    Has(f, n) && Find(f, n).value.cells.Nums?
  }

  /** The cells of a column; an absent column reads as all missing text. */
  function CellsOf(f: Frame, n: string): (c: Cells)
    requires WellFormed(f)
    ensures Len(c) == f.rows
    ensures Has(f, n) ==> c == Find(f, n).value.cells
  {
    match Find(f, n)
    case None => Texts(seq(f.rows, _ => None))
    case Some(col) => assert col in f.columns; col.cells
  }

  /** The column read as strings; an absent column reads as all missing. */
  function TextColumn(f: Frame, n: string): (r: seq<Option<string>>)
    requires WellFormed(f)
    ensures |r| == f.rows
  {
    match Find(f, n)
    case None => seq(f.rows, _ => None)
    case Some(c) => TextView(c.cells)
  }

  /** The column read as numbers; an absent column reads as all missing. */
  function NumColumn(f: Frame, n: string): (r: seq<Option<real>>)
    requires WellFormed(f)
    ensures |r| == f.rows
  {
    match Find(f, n)
    case None => seq(f.rows, _ => None)
    case Some(c) => NumView(c.cells)
  }

  /** df[n] = cells: replaces the column in place if it exists, appends it otherwise. */
  function Put(f: Frame, n: string, cells: Cells): (r: Frame)
    requires WellFormed(f)
    requires Len(cells) == f.rows
    ensures WellFormed(r) && r.rows == f.rows
    ensures Find(r, n) == Some(Column(n, cells))
  {
    var r :=
      if Has(f, n) then
        Frame(f.rows, f.columns[IndexOfName(f.columns, n) := Column(n, cells)])
      else
        Frame(f.rows, f.columns + [Column(n, cells)]);
    PutFacts(f, n, cells, r);
    r
  }

  lemma PutFacts(f: Frame, n: string, cells: Cells, r: Frame)
    requires WellFormed(f)
    requires Len(cells) == f.rows
    requires Has(f, n) ==> r == Frame(f.rows, f.columns[IndexOfName(f.columns, n) := Column(n, cells)])
    requires !Has(f, n) ==> r == Frame(f.rows, f.columns + [Column(n, cells)])
    ensures WellFormed(r)
    ensures Find(r, n) == Some(Column(n, cells))
    ensures Has(f, n) ==> Names(r) == Names(f)
    ensures !Has(f, n) ==> Names(r) == Names(f) + [n]
  {
    var k := if Has(f, n) then IndexOfName(f.columns, n) else |f.columns|;
    assert SetAt(f, r, k, Column(n, cells));
    PutWellFormed(f, n, cells, r, k);
    FindUnique(r, k);
  }

  /** `r` is `f` with the column at position k set to c; k may be one past the end. */
  predicate SetAt(f: Frame, r: Frame, k: nat, c: Column) {
    && r.rows == f.rows
    && k <= |f.columns|
    && |r.columns| == (if k < |f.columns| then |f.columns| else |f.columns| + 1)
    && r.columns[k] == c
    && forall i :: 0 <= i < |f.columns| && i != k ==> r.columns[i] == f.columns[i]
  }

  lemma PutWellFormed(f: Frame, n: string, cells: Cells, r: Frame, k: nat)
    requires WellFormed(f) && Len(cells) == f.rows
    requires SetAt(f, r, k, Column(n, cells))
    requires k < |f.columns| ==> f.columns[k].name == n
    requires k == |f.columns| ==> !Has(f, n)
    ensures WellFormed(r)
  {
    assert forall i :: 0 <= i < |r.columns| ==> NameOf(r.columns[i]) == if i == k then n else NameOf(f.columns[i]);
    forall i, j | 0 <= i < j < |r.columns| ensures NameOf(r.columns[i]) != NameOf(r.columns[j]) {
      if i != k && j != k {
        assert NameOf(f.columns[i]) != NameOf(f.columns[j]);
      } else if i == k && k < |f.columns| {
        assert NameOf(f.columns[k]) != NameOf(f.columns[j]);
      } else if j == k && k < |f.columns| {
        assert NameOf(f.columns[i]) != NameOf(f.columns[k]);
      } else {
        assert f.columns[if i == k then j else i].name != n;
      }
    }
  }

  /** df[n] = cells keeps the column order, appending a new column at the end. */
  lemma PutNames(f: Frame, n: string, cells: Cells)
    requires WellFormed(f) && Len(cells) == f.rows
    ensures Has(f, n) ==> Names(Put(f, n, cells)) == Names(f)
    ensures !Has(f, n) ==> Names(Put(f, n, cells)) == Names(f) + [n]
  {
    var r := Put(f, n, cells);
    PutFacts(f, n, cells, r);
  }

  /** df[n] = cells leaves every other column as it was. */
  lemma PutOthersAll(f: Frame, n: string, cells: Cells)
    requires WellFormed(f) && Len(cells) == f.rows
    ensures forall m :: m != n ==> Find(Put(f, n, cells), m) == Find(f, m)
  {
    forall m | m != n ensures Find(Put(f, n, cells), m) == Find(f, m) {
      PutOthers(f, n, cells, m);
    }
  }

  lemma PutOthers(f: Frame, n: string, cells: Cells, m: string)
    requires WellFormed(f) && Len(cells) == f.rows && m != n
    ensures Find(Put(f, n, cells), m) == Find(f, m)
  {
    var r := Put(f, n, cells);
    var k := if Has(f, n) then IndexOfName(f.columns, n) else |f.columns|;
    assert SetAt(f, r, k, Column(n, cells));
    match Find(r, m)
    case Some(col) =>
      var i :| 0 <= i < |r.columns| && r.columns[i] == col;
      assert i != k;
      FindUnique(f, i);
    case None =>
      forall i | 0 <= i < |f.columns| ensures f.columns[i].name != m {
        if i != k {
          assert r.columns[i] == f.columns[i];
        }
      }
  }

  /** Two frames with the same names have the same columns present. */
  lemma SameNamesSameColumns(f: Frame, g: Frame)
    requires Names(f) == Names(g)
    ensures forall n :: Has(f, n) <==> Has(g, n)
  {
    forall n ensures Has(f, n) <==> Has(g, n) {
      HasIsName(f, n);
      HasIsName(g, n);
    }
  }
}
