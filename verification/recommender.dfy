/** Recommender (src/recommendation.py): the loaded interaction table and
    recommend_items, which filters the table by occasion and category, scores
    each matching row against the user's average feature vector, and ranks the
    items. The similarity kernel (cosine_similarity) is a parameter. */
module Recommending {
  import opened Wrappers
  import opened Seqs
  import opened Frames
  import opened Ranking

  /** A table pandas could hold: columns as long as the table, names unique. */
  type Table = f: Frame | WellFormed(f) witness Frame(0, [])

  /** The recommender's state: interaction_df, absent until loaded. */
  datatype Recommender = Recommender(interactions: Option<Table>)

  /** A new recommender has nothing loaded. */
  const Fresh: Recommender := Recommender(None)

  /** load_interactions: the unpickled table becomes interaction_df. */
  function LoadInteractions(rec: Recommender, table: Table): (r: Recommender)
    ensures r.interactions == Some(table)
  {
    rec.(interactions := Some(table))
  }

  /** Config.NUM_RECOMMENDATIONS, the default top_n. */
  const DefaultTopN: nat := 5

  /** Why recommend_items raises. */
  datatype Error =
    | NotLoaded                   // the ValueError of an unloaded recommender
    | MissingColumn(name: string) // a KeyError on a column the table lacks
    | NotNumeric(name: string)    // a mean or an int cast over text cells

  // ---------------------------------------------------------------- features

  /** The features tried first, in source order. */
  const BaseFeatures: seq<string> :=
    ["fit_encoded", "bust_cup_encoded", "bust_band", "BMI", "size_encoded", "days_since_review",
     "review_length", "positive_word_count", "negative_word_count"]

  /** The encoded categorical features, added when present. */
  const EncodedFeatures: seq<string> := ["body type_encoded", "rented for_encoded", "category_encoded"]

  const EmbeddingPrefix: string := "text_emb_"

  predicate StartsWith(s: string, prefix: string) {
    |prefix| <= |s| && s[..|prefix|] == prefix
  }

  /** The embedding columns, in table order. */
  function Embeddings(f: Table): (r: seq<string>)
    ensures forall i :: 0 <= i < |r| ==> StartsWith(r[i], EmbeddingPrefix) && Has(f, r[i])
    ensures forall n :: n in Names(f) && StartsWith(n, EmbeddingPrefix) ==> n in r
    ensures IsSubsequence(r, Names(f))
  {
    var r := Filter(Names(f), (n: string) => StartsWith(n, EmbeddingPrefix));
    forall i | 0 <= i < |r| ensures Has(f, r[i]) {
      HasIsName(f, r[i]);
    }
    r
  }

  /** potential_features: the base features, the encoded ones the table has,
      then the embedding columns. */
  function Candidates(f: Table): (r: seq<string>)
    ensures |BaseFeatures| <= |r| && r[..|BaseFeatures|] == BaseFeatures
    ensures forall i :: |BaseFeatures| <= i < |r| ==> Has(f, r[i])
    ensures forall i :: 0 <= i < |EncodedFeatures| && Has(f, EncodedFeatures[i]) ==> EncodedFeatures[i] in r
    ensures forall n :: n in Names(f) && StartsWith(n, EmbeddingPrefix) ==> n in r
  {
    var encoded := Filter(EncodedFeatures, (n: string) => Has(f, n));
    AppendedHave(f, BaseFeatures, encoded, Embeddings(f));
    BaseFeatures + encoded + Embeddings(f)
  }

  /** Columns of the table appended after a prefix are columns of the table. */
  lemma AppendedHave(f: Table, a: seq<string>, b: seq<string>, c: seq<string>)
    requires forall i :: 0 <= i < |b| ==> Has(f, b[i])
    requires forall i :: 0 <= i < |c| ==> Has(f, c[i])
    ensures (a + b + c)[..|a|] == a
    ensures forall i :: |a| <= i < |a + b + c| ==> Has(f, (a + b + c)[i])
  {
    var r := a + b + c;
    assert forall i :: |a| <= i < |a| + |b| ==> r[i] == b[i - |a|];
    assert forall i :: |a| + |b| <= i < |r| ==> r[i] == c[i - |a| - |b|];
  }

  /** similarity_features: the candidates the table has. */
  function SimilarityFeatures(f: Table): (fs: seq<string>)
    ensures forall i :: 0 <= i < |fs| ==> Has(f, fs[i])
  {
    Filter(Candidates(f), (n: string) => Has(f, n))
  }

  /** The similarity features are, in order, those of the base features, the
      encoded features and the embedding columns that the table has, with no
      feature twice. */
  lemma SimilarityFeaturesOrder(f: Table)
    ensures SimilarityFeatures(f) == Filter(BaseFeatures + EncodedFeatures + Embeddings(f), (n: string) => Has(f, n))
    ensures IsSubsequence(SimilarityFeatures(f), BaseFeatures + EncodedFeatures + Embeddings(f))
    ensures Distinct(SimilarityFeatures(f))
  {
    var has := (n: string) => Has(f, n);
    var enc := Filter(EncodedFeatures, has);
    FilterConcat(BaseFeatures + enc, Embeddings(f), has);
    FilterConcat(BaseFeatures, enc, has);
    FilterFilter(EncodedFeatures, has, has);
    FilterConcat(BaseFeatures + EncodedFeatures, Embeddings(f), has);
    FilterConcat(BaseFeatures, EncodedFeatures, has);
    CandidatesDistinct(f);
    FilterDistinct(BaseFeatures + EncodedFeatures + Embeddings(f), has);
  }

  lemma CandidatesDistinct(f: Table)
    ensures Distinct(BaseFeatures + EncodedFeatures + Embeddings(f))
  {
    var fixed := BaseFeatures + EncodedFeatures;
    assert Distinct(fixed);
    forall i | 0 <= i < |fixed| ensures !StartsWith(fixed[i], EmbeddingPrefix) {
      assert fixed[i][0] != 't';
    }
    NamesDistinct(f);
    SubsequenceDistinct(Embeddings(f), Names(f));
    DistinctConcat(fixed, Embeddings(f));
  }

  lemma DistinctConcat(a: seq<string>, b: seq<string>)
    requires Distinct(a) && Distinct(b)
    requires forall i :: 0 <= i < |a| ==> !StartsWith(a[i], EmbeddingPrefix)
    requires forall j :: 0 <= j < |b| ==> StartsWith(b[j], EmbeddingPrefix)
    ensures Distinct(a + b)
  {
    var s := a + b;
    forall i, j | 0 <= i < j < |s| ensures s[i] != s[j] {
      if i < |a| && j >= |a| {
        assert !StartsWith(s[i], EmbeddingPrefix) && StartsWith(s[j], EmbeddingPrefix);
      }
    }
  }

  // ---------------------------------------------------------------- rows and vectors

  /** The row numbers below n whose mark is set, in increasing order. */
  function RowsWhere(marks: seq<bool>, n: nat): (rows: seq<nat>)
    requires n <= |marks|
    ensures forall i :: 0 <= i < |rows| ==> rows[i] < n && marks[rows[i]]
    ensures forall k :: 0 <= k < n && marks[k] ==> k in rows
    ensures forall i, j :: 0 <= i < j < |rows| ==> rows[i] < rows[j]
    ensures |rows| == 0 <==> forall k :: 0 <= k < n ==> !marks[k]
  {
    if n == 0 then [] else Extend(marks, RowsWhere(marks, n - 1), n - 1)
  }

  /** Extends the marked rows below m by row m if it is marked. */
  function Extend(marks: seq<bool>, prev: seq<nat>, m: nat): (rows: seq<nat>)
    requires m < |marks|
    requires forall i :: 0 <= i < |prev| ==> prev[i] < m && marks[prev[i]]
    requires forall k :: 0 <= k < m && marks[k] ==> k in prev
    requires forall i, j :: 0 <= i < j < |prev| ==> prev[i] < prev[j]
    requires |prev| == 0 <==> forall k :: 0 <= k < m ==> !marks[k]
    ensures forall i :: 0 <= i < |rows| ==> rows[i] < m + 1 && marks[rows[i]]
    ensures forall k :: 0 <= k < m + 1 && marks[k] ==> k in rows
    ensures forall i, j :: 0 <= i < j < |rows| ==> rows[i] < rows[j]
    ensures |rows| == 0 <==> forall k :: 0 <= k < m + 1 ==> !marks[k]
  {
    if marks[m] then AppendRow(marks, prev, m); prev + [m] else prev
  }

  /** Appending a marked row m to the marked rows below m keeps them
      increasing and complete below m + 1. */
  lemma AppendRow(marks: seq<bool>, prev: seq<nat>, m: nat)
    requires m < |marks| && marks[m]
    requires forall i :: 0 <= i < |prev| ==> prev[i] < m && marks[prev[i]]
    requires forall k :: 0 <= k < m && marks[k] ==> k in prev
    requires forall i, j :: 0 <= i < j < |prev| ==> prev[i] < prev[j]
    ensures forall i :: 0 <= i < |prev + [m]| ==> (prev + [m])[i] < m + 1 && marks[(prev + [m])[i]]
    ensures forall k :: 0 <= k < m + 1 && marks[k] ==> k in prev + [m]
    ensures forall i, j :: 0 <= i < j < |prev + [m]| ==> (prev + [m])[i] < (prev + [m])[j]
  {
    var rows := prev + [m];
    assert forall i :: 0 <= i < |prev| ==> rows[i] == prev[i];
    assert rows[|prev|] == m;
  }

  /** The rows whose "rented for" is the occasion and whose category is the
      category; a numeric or missing cell equals no string. */
  function Matching(f: Table, occasion: string, category: string): (rows: seq<nat>)
    ensures forall i :: 0 <= i < |rows| ==>
      rows[i] < f.rows && TextColumn(f, "rented for")[rows[i]] == Some(occasion) &&
      TextColumn(f, "category")[rows[i]] == Some(category)
    ensures forall k: nat :: k < f.rows ==>
      (TextColumn(f, "rented for")[k] == Some(occasion) && TextColumn(f, "category")[k] == Some(category) <==> k in rows)
    ensures forall i, j :: 0 <= i < j < |rows| ==> rows[i] < rows[j]
  {
    var occasions, categories := TextColumn(f, "rented for"), TextColumn(f, "category");
    RowsWhere(seq(f.rows, k requires 0 <= k < f.rows => occasions[k] == Some(occasion) && categories[k] == Some(category)), f.rows)
  }

  /** The rows of the whole table whose user_id equals the user's id; a text
      or missing cell equals no number. */
  function UserRows(f: Table, userId: int): (rows: seq<nat>)
    ensures forall i :: 0 <= i < |rows| ==> rows[i] < f.rows && NumColumn(f, "user_id")[rows[i]] == Some(userId as real)
    ensures forall k: nat :: k < f.rows ==> (NumColumn(f, "user_id")[k] == Some(userId as real) <==> k in rows)
    ensures |rows| == 0 <==> forall k: nat :: k < f.rows ==> NumColumn(f, "user_id")[k] != Some(userId as real)
  {
    var users := NumColumn(f, "user_id");
    RowsWhere(seq(f.rows, k requires 0 <= k < f.rows => users[k] == Some(userId as real)), f.rows)
  }

  /** The values of a column at the given rows. */
  function ValuesAt(f: Table, name: string, rows: seq<nat>): (r: seq<Option<real>>)
    requires forall i :: 0 <= i < |rows| ==> rows[i] < f.rows
    ensures |r| == |rows| && forall i :: 0 <= i < |rows| ==> r[i] == NumColumn(f, name)[rows[i]]
  {
    var column := NumColumn(f, name);
    seq(|rows|, i requires 0 <= i < |rows| => column[rows[i]])
  }

  /** user_data.mean() followed by nan_to_num: per feature, the mean of the
      user's present values, or 0 when all are missing. */
  function UserVector(f: Table, features: seq<string>, rows: seq<nat>): (u: seq<real>)
    requires forall i :: 0 <= i < |rows| ==> rows[i] < f.rows
    ensures |u| == |features|
  {
    seq(|features|, j requires 0 <= j < |features| => Mean(ValuesAt(f, features[j], rows)).GetOr(0.0))
  }

  /** Each user-vector entry is 0 when the user has no value for the feature,
      and otherwise lies within any bounds of the user's values. */
  lemma UserVectorEntries(f: Table, features: seq<string>, rows: seq<nat>, j: nat, lo: real, hi: real)
    requires forall i :: 0 <= i < |rows| ==> rows[i] < f.rows
    requires j < |features|
    ensures (forall i :: 0 <= i < |rows| ==> NumColumn(f, features[j])[rows[i]].None?) ==>
      UserVector(f, features, rows)[j] == 0.0
    ensures (forall i :: 0 <= i < |rows| && NumColumn(f, features[j])[rows[i]].Some? ==>
               lo <= NumColumn(f, features[j])[rows[i]].value <= hi)
            && (exists i :: 0 <= i < |rows| && NumColumn(f, features[j])[rows[i]].Some?) ==>
      lo <= UserVector(f, features, rows)[j] <= hi
  {
    var values := ValuesAt(f, features[j], rows);
    assert UserVector(f, features, rows)[j] == Mean(values).GetOr(0.0);
    if Mean(values).Some? {
      if forall i :: 0 <= i < |values| && values[i].Some? ==> lo <= values[i].value <= hi {
        MeanBounds(values, lo, hi);
      }
    }
  }

  /** One row of the item matrix after nan_to_num: missing values become 0. */
  function ItemVector(f: Table, features: seq<string>, k: nat): (v: seq<real>)
    requires k < f.rows
    ensures |v| == |features|
    ensures forall j :: 0 <= j < |features| ==>
      v[j] == if NumColumn(f, features[j])[k].Some? then NumColumn(f, features[j])[k].value else 0.0
  {
    seq(|features|, j requires 0 <= j < |features| => NumColumn(f, features[j])[k].GetOr(0.0))
  }

  /** Whether a cell holds a value (what pandas' count counts). */
  predicate Present(c: Cells, k: nat) {
    match c
    case Texts(t) => k < |t| && t[k].Some?
    case Nums(n) => k < |n| && n[k].Some?
  }

  /** The matching rows as the aggregation reads them, each with its score. */
  function Entries(f: Table, rows: seq<nat>, features: seq<string>, u: seq<real>,
                   sim: (seq<real>, seq<real>) -> real): (es: seq<Entry>)
    requires forall i :: 0 <= i < |rows| ==> rows[i] < f.rows
    ensures |es| == |rows|
    ensures forall i :: 0 <= i < |rows| ==>
      && es[i].category == TextColumn(f, "category")[rows[i]]
      && es[i].rentedFor == TextColumn(f, "rented for")[rows[i]]
      && es[i].item == NumColumn(f, "item_id")[rows[i]]
      && es[i].rating == NumColumn(f, "rating")[rows[i]]
      && es[i].counted == Present(CellsOf(f, "user_id"), rows[i])
      && es[i].score == sim(u, ItemVector(f, features, rows[i]))
  {
    var items, ratings := NumColumn(f, "item_id"), NumColumn(f, "rating");
    var categories, occasions := TextColumn(f, "category"), TextColumn(f, "rented for");
    var users := CellsOf(f, "user_id");
    seq(|rows|, i requires 0 <= i < |rows| =>
      Entry(items[rows[i]], ratings[rows[i]], Present(users, rows[i]), sim(u, ItemVector(f, features, rows[i])),
            categories[rows[i]], occasions[rows[i]]))
  }

  /** The first feature whose column holds text. */
  function FirstTextual(f: Table, features: seq<string>): (r: Option<string>)
    ensures r.Some? ==> r.value in features && Has(f, r.value) && !IsNumeric(f, r.value)
    ensures r.None? <==> forall i :: 0 <= i < |features| ==> !Has(f, features[i]) || IsNumeric(f, features[i])
  {
    if |features| == 0 then None
    else if Has(f, features[0]) && !IsNumeric(f, features[0]) then Some(features[0])
    else FirstTextual(f, features[1..])
  }

  // ---------------------------------------------------------------- output

  /** astype('int') on a float: truncation toward zero. */
  function Truncate(x: real): (n: int)
    ensures x >= 0.0 ==> n as real <= x < n as real + 1.0
    ensures x < 0.0 ==> n as real - 1.0 < x <= n as real
  {
    if x >= 0.0 then x.Floor else -((-x).Floor)
  }

  /** One row of the returned frame. */
  datatype Recommendation = Recommendation(itemId: int, averageRating: Option<real>, reviewCount: nat,
                                           similarityScore: real, category: Option<string>,
                                           rentedFor: Option<string>)

  function Output(g: Group): Recommendation {
    Recommendation(Truncate(g.item), g.averageRating, g.reviewCount, g.similarityScore, g.category, g.rentedFor)
  }

  function Outputs(gs: seq<Group>): (r: seq<Recommendation>)
    ensures |r| == |gs| && forall i :: 0 <= i < |gs| ==> r[i] == Output(gs[i])
  {
    seq(|gs|, i requires 0 <= i < |gs| => Output(gs[i]))
  }

  /** The ranked groups of the matching rows, scored against the user's vector. */
  function Ranked(f: Table, matched: seq<nat>, features: seq<string>, mine: seq<nat>, topN: nat,
                  sim: (seq<real>, seq<real>) -> real): (gs: seq<Group>)
    requires forall i :: 0 <= i < |matched| ==> matched[i] < f.rows
    requires forall i :: 0 <= i < |mine| ==> mine[i] < f.rows
    ensures |gs| <= topN
  {
    Rank(Aggregate(Entries(f, matched, features, UserVector(f, features, mine), sim)), topN)
  }

  /** recommend_items(user_id, occasion, category, top_n). An empty DataFrame
      is the empty list. */
  function RecommendItems(rec: Recommender, userId: int, occasion: string, category: string, topN: nat,
                          sim: (seq<real>, seq<real>) -> real): (r: Result<seq<Recommendation>, Error>)
    ensures r.Ok? ==> |r.value| <= topN
  {
    match rec.interactions
    case None => Err(NotLoaded)
    case Some(f) => RecommendFrom(f, userId, occasion, category, topN, sim)
  }

  /** recommend_items on a loaded table: the occasion and category filter. */
  function RecommendFrom(f: Table, userId: int, occasion: string, category: string, topN: nat,
                         sim: (seq<real>, seq<real>) -> real): (r: Result<seq<Recommendation>, Error>)
    ensures r.Ok? ==> |r.value| <= topN
    ensures r != Err(NotLoaded)
  {
    if !Has(f, "rented for") then Err(MissingColumn("rented for"))
    else if !Has(f, "category") then Err(MissingColumn("category"))
    else
      var matched := Matching(f, occasion, category);
      if |matched| == 0 then Ok([]) else ScoreMatches(f, matched, userId, topN, sim)
  }

  /** The feature selection and the user's rows. */
  function ScoreMatches(f: Table, matched: seq<nat>, userId: int, topN: nat,
                        sim: (seq<real>, seq<real>) -> real): (r: Result<seq<Recommendation>, Error>)
    requires forall i :: 0 <= i < |matched| ==> matched[i] < f.rows
    ensures r.Ok? ==> |r.value| <= topN
    ensures r != Err(NotLoaded)
  {
    var features := SimilarityFeatures(f);
    if !Has(f, "user_id") then Err(MissingColumn("user_id"))
    else
      var mine := UserRows(f, userId);
      // user_data.empty also holds when no feature was selected
      if |mine| == 0 || |features| == 0 then Ok([])
      else RankMatches(f, matched, features, mine, topN, sim)
  }

  /** The mean over the features, the grouping and the ranking. */
  function RankMatches(f: Table, matched: seq<nat>, features: seq<string>, mine: seq<nat>, topN: nat,
                       sim: (seq<real>, seq<real>) -> real): (r: Result<seq<Recommendation>, Error>)
    requires forall i :: 0 <= i < |matched| ==> matched[i] < f.rows
    requires forall i :: 0 <= i < |mine| ==> mine[i] < f.rows
    ensures r.Ok? ==> |r.value| <= topN
    ensures r != Err(NotLoaded)
  {
    match ColumnsFault(f, features)
    case Some(e) => Err(e)
    case None => Ok(Outputs(Ranked(f, matched, features, mine, topN, sim)))
  }

  /** What the mean over the features, the groupby on item_id, the mean rating
      and the int cast of item_id raise, in that order. */
  function ColumnsFault(f: Table, features: seq<string>): (e: Option<Error>)
    ensures e != Some(NotLoaded)
    ensures e.None? ==> Has(f, "item_id") && IsNumeric(f, "item_id") && Has(f, "rating") && IsNumeric(f, "rating")
    ensures e.None? ==> forall i :: 0 <= i < |features| ==> !Has(f, features[i]) || IsNumeric(f, features[i])
    ensures (&& IsNumeric(f, "item_id") && IsNumeric(f, "rating")
             && forall i :: 0 <= i < |features| ==> !Has(f, features[i]) || IsNumeric(f, features[i])) ==> e.None?
    // a text feature is met first, by the user mean
    ensures (exists i :: 0 <= i < |features| && Has(f, features[i]) && !IsNumeric(f, features[i])) ==>
      e.Some? && e.value.NotNumeric? && e.value.name in features && Has(f, e.value.name)
    // with numeric features, a text rating fails the rating mean before the item_id cast
    ensures (&& Has(f, "item_id") && Has(f, "rating") && !IsNumeric(f, "rating")
             && forall i :: 0 <= i < |features| ==> !Has(f, features[i]) || IsNumeric(f, features[i])) ==>
      e == Some(NotNumeric("rating"))
  {
    match FirstTextual(f, features)
    case Some(name) => Some(NotNumeric(name))
    case None =>
      if !Has(f, "item_id") then Some(MissingColumn("item_id"))
      else if !Has(f, "rating") then Some(MissingColumn("rating"))
      else if !IsNumeric(f, "rating") then Some(NotNumeric("rating"))
      else if !IsNumeric(f, "item_id") then Some(NotNumeric("item_id"))
      else None
  }

  // ---------------------------------------------------------------- properties

  /** recommend_items fails with NotLoaded exactly when nothing is loaded. */
  lemma NotLoadedIff(rec: Recommender, userId: int, occasion: string, category: string, topN: nat,
                     sim: (seq<real>, seq<real>) -> real)
    ensures RecommendItems(rec, userId, occasion, category, topN, sim) == Err(NotLoaded) <==> rec.interactions.None?
  {
  }

  /** After load_interactions, recommend_items never reports an unloaded recommender. */
  lemma LoadedRecommends(rec: Recommender, table: Table, userId: int, occasion: string, category: string,
                         topN: nat, sim: (seq<real>, seq<real>) -> real)
    ensures RecommendItems(LoadInteractions(rec, table), userId, occasion, category, topN, sim) != Err(NotLoaded)
  {
    NotLoadedIff(LoadInteractions(rec, table), userId, occasion, category, topN, sim);
  }

  /** With no row of the occasion and category, the result is empty. */
  lemma NoMatchEmpty(f: Table, userId: int, occasion: string, category: string, topN: nat,
                     sim: (seq<real>, seq<real>) -> real)
    requires Has(f, "rented for") && Has(f, "category")
    requires forall k :: 0 <= k < f.rows ==>
      TextColumn(f, "rented for")[k] != Some(occasion) || TextColumn(f, "category")[k] != Some(category)
    ensures RecommendItems(Recommender(Some(f)), userId, occasion, category, topN, sim) == Ok([])
  {
  }

  /** With rows to match but no row of the user in the whole table, the result
      is empty. */
  lemma NoUserRowsEmpty(f: Table, userId: int, occasion: string, category: string, topN: nat,
                        sim: (seq<real>, seq<real>) -> real)
    requires Has(f, "rented for") && Has(f, "category") && Has(f, "user_id")
    requires forall k :: 0 <= k < f.rows ==> NumColumn(f, "user_id")[k] != Some(userId as real)
    ensures RecommendItems(Recommender(Some(f)), userId, occasion, category, topN, sim) == Ok([])
  {
    var matched := Matching(f, occasion, category);
    assert |UserRows(f, userId)| == 0;
    if |matched| > 0 {
      assert ScoreMatches(f, matched, userId, topN, sim) == Ok([]);
    }
  }

  /** A non-empty result is the ranked groups of the matching rows, scored
      against the user's vector over the similarity features. */
  lemma NonEmptyResult(rec: Recommender, userId: int, occasion: string, category: string, topN: nat,
                       sim: (seq<real>, seq<real>) -> real)
    requires var r := RecommendItems(rec, userId, occasion, category, topN, sim); r.Ok? && r.value != []
    ensures rec.interactions.Some?
    ensures var f := rec.interactions.value;
      RecommendItems(rec, userId, occasion, category, topN, sim).value ==
        Outputs(Ranked(f, Matching(f, occasion, category), SimilarityFeatures(f), UserRows(f, userId), topN, sim))
  {
    var f := rec.interactions.value;
    var matched := Matching(f, occasion, category);
    FilterPassed(f, userId, occasion, category, topN, sim);
    UserFound(f, matched, userId, topN, sim);
  }

  lemma FilterPassed(f: Table, userId: int, occasion: string, category: string, topN: nat,
                     sim: (seq<real>, seq<real>) -> real)
    requires var r := RecommendFrom(f, userId, occasion, category, topN, sim); r.Ok? && r.value != []
    ensures RecommendFrom(f, userId, occasion, category, topN, sim) ==
      ScoreMatches(f, Matching(f, occasion, category), userId, topN, sim)
  {
  }

  lemma UserFound(f: Table, matched: seq<nat>, userId: int, topN: nat, sim: (seq<real>, seq<real>) -> real)
    requires forall i :: 0 <= i < |matched| ==> matched[i] < f.rows
    requires var r := ScoreMatches(f, matched, userId, topN, sim); r.Ok? && r.value != []
    ensures ScoreMatches(f, matched, userId, topN, sim) ==
      Ok(Outputs(Ranked(f, matched, SimilarityFeatures(f), UserRows(f, userId), topN, sim)))
  {
    assert ScoreMatches(f, matched, userId, topN, sim) ==
      RankMatches(f, matched, SimilarityFeatures(f), UserRows(f, userId), topN, sim);
    RankMatchesOk(f, matched, SimilarityFeatures(f), UserRows(f, userId), topN, sim);
  }

  lemma RankMatchesOk(f: Table, matched: seq<nat>, features: seq<string>, mine: seq<nat>, topN: nat,
                      sim: (seq<real>, seq<real>) -> real)
    requires forall i :: 0 <= i < |matched| ==> matched[i] < f.rows
    requires forall i :: 0 <= i < |mine| ==> mine[i] < f.rows
    requires RankMatches(f, matched, features, mine, topN, sim).Ok?
    ensures RankMatches(f, matched, features, mine, topN, sim) == Ok(Outputs(Ranked(f, matched, features, mine, topN, sim)))
  {
  }

  /** Every recommendation is for the requested occasion and category, and the
      list is sorted by non-increasing score. */
  lemma RecommendationsRanked(rec: Recommender, userId: int, occasion: string, category: string, topN: nat,
                              sim: (seq<real>, seq<real>) -> real)
    requires RecommendItems(rec, userId, occasion, category, topN, sim).Ok?
    ensures var out := RecommendItems(rec, userId, occasion, category, topN, sim).value;
      && (forall i :: 0 <= i < |out| ==> out[i].category == Some(category) && out[i].rentedFor == Some(occasion))
      && (forall i, j :: 0 <= i < j < |out| ==> out[i].similarityScore >= out[j].similarityScore)
  {
    var out := RecommendItems(rec, userId, occasion, category, topN, sim).value;
    if out != [] {
      NonEmptyResult(rec, userId, occasion, category, topN, sim);
      var f := rec.interactions.value;
      var matched, features, mine := Matching(f, occasion, category), SimilarityFeatures(f), UserRows(f, userId);
      var es := Entries(f, matched, features, UserVector(f, features, mine), sim);
      MatchedLabels(f, occasion, category, features, UserVector(f, features, mine), sim);
      RankedLabels(es, topN, category, occasion);
    }
  }

  /** A non-empty result holds min(top_n, number of items) recommendations,
      one per distinct item among the matching rows, each that item's
      aggregation: its review count, mean rating and best score. */
  lemma RecommendationsPerItem(rec: Recommender, userId: int, occasion: string, category: string, topN: nat,
                               sim: (seq<real>, seq<real>) -> real)
    requires var r := RecommendItems(rec, userId, occasion, category, topN, sim); r.Ok? && r.value != []
    ensures rec.interactions.Some?
    ensures var f := rec.interactions.value;
      var features := SimilarityFeatures(f);
      var es := Entries(f, Matching(f, occasion, category), features,
                        UserVector(f, features, UserRows(f, userId)), sim);
      var gs := Rank(Aggregate(es), topN);
      && RecommendItems(rec, userId, occasion, category, topN, sim).value == Outputs(gs)
      && |gs| == Min(topN, |Items(es)|)
      && DistinctBy(gs, ItemOf)
      && forall i :: 0 <= i < |gs| ==> Occurs(es, gs[i].item) && gs[i] == GroupOf(es, gs[i].item)
  {
    NonEmptyResult(rec, userId, occasion, category, topN, sim);
    var f := rec.interactions.value;
    var features := SimilarityFeatures(f);
    RankedGroups(Entries(f, Matching(f, occasion, category), features,
                         UserVector(f, features, UserRows(f, userId)), sim), topN);
  }

  /** What recommend_items needs to reach the ranking: the filter columns and
      user_id exist, some row matches, the user has a row, some similarity
      feature exists, and item_id, rating and every feature column are numeric. */
  predicate Answerable(f: Table, userId: int, occasion: string, category: string) {
    && Has(f, "rented for") && Has(f, "category") && Has(f, "user_id")
    && |Matching(f, occasion, category)| > 0
    && |UserRows(f, userId)| > 0
    && |SimilarityFeatures(f)| > 0
    && IsNumeric(f, "item_id") && IsNumeric(f, "rating")
    && forall i :: 0 <= i < |SimilarityFeatures(f)| ==> IsNumeric(f, SimilarityFeatures(f)[i])
  }

  /** On an answerable table recommend_items succeeds with the ranked groups of
      the matching rows, scored against the user's mean vector. */
  lemma RecommendSucceeds(f: Table, userId: int, occasion: string, category: string, topN: nat,
                          sim: (seq<real>, seq<real>) -> real)
    requires Answerable(f, userId, occasion, category)
    ensures RecommendItems(Recommender(Some(f)), userId, occasion, category, topN, sim) ==
      Ok(Outputs(Ranked(f, Matching(f, occasion, category), SimilarityFeatures(f), UserRows(f, userId), topN, sim)))
    ensures Ranked(f, Matching(f, occasion, category), SimilarityFeatures(f), UserRows(f, userId), topN, sim) ==
      Rank(Aggregate(Scored(f, userId, occasion, category, sim)), topN)
  {
    var matched, features, mine := Matching(f, occasion, category), SimilarityFeatures(f), UserRows(f, userId);
    assert ColumnsFault(f, features).None?;
    assert RankMatches(f, matched, features, mine, topN, sim) == Ok(Outputs(Ranked(f, matched, features, mine, topN, sim)));
    assert ScoreMatches(f, matched, userId, topN, sim) == RankMatches(f, matched, features, mine, topN, sim);
  }

  /** On an answerable table the result has min(top_n, number of items among
      the matching rows) recommendations, one per distinct item and each that
      item's aggregation; it is non-empty exactly when top_n is positive and
      some matching row has an item id. */
  lemma AnsweredPerItem(f: Table, userId: int, occasion: string, category: string, topN: nat,
                        sim: (seq<real>, seq<real>) -> real)
    requires Answerable(f, userId, occasion, category)
    ensures var es := Scored(f, userId, occasion, category, sim);
      var gs := Rank(Aggregate(es), topN);
      var r := RecommendItems(Recommender(Some(f)), userId, occasion, category, topN, sim);
      && r == Ok(Outputs(gs))
      && |gs| == Min(topN, |Items(es)|)
      && DistinctBy(gs, ItemOf)
      && (forall i :: 0 <= i < |gs| ==> Occurs(es, gs[i].item) && gs[i] == GroupOf(es, gs[i].item))
      && (r.value != [] <==> topN > 0 && exists k :: k in Matching(f, occasion, category) && NumColumn(f, "item_id")[k].Some?)
  {
    var es := Scored(f, userId, occasion, category, sim);
    RecommendSucceeds(f, userId, occasion, category, topN, sim);
    RankedGroups(es, topN);
    ItemsNonEmpty(es);
    ScoredPresent(es, Matching(f, occasion, category), NumColumn(f, "item_id"));
    AnsweredLink(RecommendItems(Recommender(Some(f)), userId, occasion, category, topN, sim), Rank(Aggregate(es), topN),
                 |Items(es)|, topN, exists i :: 0 <= i < |es| && es[i].item.Some?,
                 exists k :: k in Matching(f, occasion, category) && NumColumn(f, "item_id")[k].Some?);
  }

  lemma AnsweredLink(r: Result<seq<Recommendation>, Error>, gs: seq<Group>, items: nat, topN: nat,
                     somePresent: bool, someInTable: bool)
    requires r == Ok(Outputs(gs)) && |gs| == Min(topN, items)
    requires items > 0 <==> somePresent
    requires somePresent <==> someInTable
    ensures r.value != [] <==> topN > 0 && someInTable
  {
  }

  /** The matching rows scored against the user's mean vector over the
      similarity features, row i of the result being matching row i. */
  function Scored(f: Table, userId: int, occasion: string, category: string,
                  sim: (seq<real>, seq<real>) -> real): (es: seq<Entry>)
    ensures var matched := Matching(f, occasion, category);
      && |es| == |matched|
      && (forall i :: 0 <= i < |es| ==> es[i].item == NumColumn(f, "item_id")[matched[i]])
  {
    var matched, features := Matching(f, occasion, category), SimilarityFeatures(f);
    Entries(f, matched, features, UserVector(f, features, UserRows(f, userId)), sim)
  }

  /** Some scored entry names an item exactly when some matching row has one. */
  lemma ScoredPresent(es: seq<Entry>, matched: seq<nat>, items: seq<Option<real>>)
    requires |es| == |matched| && forall i :: 0 <= i < |matched| ==> matched[i] < |items|
    requires forall i :: 0 <= i < |es| ==> es[i].item == items[matched[i]]
    ensures (exists i :: 0 <= i < |es| && es[i].item.Some?) <==> exists k :: k in matched && items[k].Some?
  {
    if exists k :: k in matched && items[k].Some? {
      var k :| k in matched && items[k].Some?;
      var i :| 0 <= i < |matched| && matched[i] == k;
      assert es[i].item.Some?;
    }
  }

  /** When recommend_items reaches the ranking but a needed column is missing
      or holds text, it fails with the first such fault. */
  lemma RecommendFaults(f: Table, userId: int, occasion: string, category: string, topN: nat,
                        sim: (seq<real>, seq<real>) -> real)
    requires Has(f, "rented for") && Has(f, "category") && Has(f, "user_id")
    requires |Matching(f, occasion, category)| > 0 && |UserRows(f, userId)| > 0 && |SimilarityFeatures(f)| > 0
    requires ColumnsFault(f, SimilarityFeatures(f)).Some?
    ensures RecommendItems(Recommender(Some(f)), userId, occasion, category, topN, sim) ==
      Err(ColumnsFault(f, SimilarityFeatures(f)).value)
  {
    var matched, features, mine := Matching(f, occasion, category), SimilarityFeatures(f), UserRows(f, userId);
    assert ScoreMatches(f, matched, userId, topN, sim) == RankMatches(f, matched, features, mine, topN, sim);
  }

  /** Every matching row carries the requested category and occasion. */
  lemma MatchedLabels(f: Table, occasion: string, category: string, features: seq<string>, u: seq<real>,
                      sim: (seq<real>, seq<real>) -> real)
    ensures var es := Entries(f, Matching(f, occasion, category), features, u, sim);
      forall i :: 0 <= i < |es| ==> es[i].category == Some(category) && es[i].rentedFor == Some(occasion)
  {
  }
}
