# Rental recommender core, modelled in Dafny

This project models the data pipeline and recommender of a clothing-rental
recommendation system. The model covers three parts:

- **Text cleaning.** `TextCleaner.clean_text` lower-cases a review, keeps
  only `[a-z]` and whitespace, and strips it.
- **Review-frame preparation.** `DataProcessor.clean_data` drops sparse
  columns, imputes the remaining missing cells and cleans the review text.
  `DataProcessor.feature_engineering` then adds the derived columns:
  `full_review`, `fit_encoded`, the parsed `weight` and `height`, `BMI`,
  `bust_band`, `bust_cup`, `bust_cup_encoded` and the label-encoded
  categorical columns.
- **The recommender.** `Recommender` holds an interaction table that starts
  out unloaded. `recommend_items` does the following:
  1. It filters the table by occasion and category.
  2. It picks the similarity features.
  3. It averages the user's rows into one vector.
  4. It scores every matching row against that vector.
  5. It groups the rows by item, ranks the groups by best score and keeps
     the top `top_n`.

A pandas DataFrame is modelled as a `Frame`: a row count plus a list of named
columns. Each column holds either text cells or numeric cells, and a missing
value (`NaN`/`None`) is `None`. Every operation is a pure function over
frames. The modules are:

| module | file | models |
|---|---|---|
| `Wrappers` | wrappers.dfy | `Option`, `Result` |
| `Seqs` | seqs.dfy | filtering, subsequences, distinctness |
| `Text` | text.dfy | character classes, `lower`, `strip`, `split`, `replace`, digit strings |
| `TextCleaner` | text_cleaner.dfy | `clean_text` |
| `Frames` | frames.dfy | the DataFrame model: lookup and column assignment |
| `Cleaning` | cleaning.dfy | `clean_data` |
| `Parsers` | parsers.dfy | the per-cell conversions of `feature_engineering` |
| `LabelEncoding` | label_encoding.dfy | sklearn's `LabelEncoder` |
| `FeatureEngineering` | features.dfy | `feature_engineering`, one step per block |
| `Ranking` | ranking.dfy | mean/max/first, `groupby("item_id").agg`, `sort_values().head()` |
| `Recommending` | recommender.dfy | `Recommender`, `load_interactions`, `recommend_items` |

`feature_engineering` is modelled as a list of blocks (`Steps`), each
written as a `Step`. Each block writes one column when its guard holds.

- `Frames.PutOthers` says that assigning one column leaves every other
  column as it was.
- From that, the `Engineered*` lemmas state, column by column, what the
  whole pass produces from its input.

## Model

| member | source | states |
|---|---|---|
| TextCleaner.CleanText | src/utils.py:12-18 | a non-string gives ""; every character of the result is a lower-case ASCII letter or whitespace; the result neither starts nor ends with whitespace and is never longer than the input |
| TextCleaner.CleanTextIdempotent | src/utils.py:15-18 | cleaning a cleaned text gives it back unchanged |
| TextCleaner.CleanTextLetters | src/utils.py:15-16 | the letters of the result are exactly the input's ASCII letters, lower-cased, in their original order (checked against the reference `LettersLowered`) |
| Cleaning.Prune | src/data_processing.py:15 | the kept columns are a subsequence of the input columns (same order, same contents); each kept column has at least half its cells present, and every column with at least half present is kept |
| Cleaning.PruneHas | src/data_processing.py:15 | a column survives pruning if and only if 2 × its present count ≥ the number of rows, so a column exactly half present is kept |
| Cleaning.FillMissing | src/data_processing.py:20-21 | imputation leaves present cells as they were, turns each missing cell into the fill value, and leaves no cell missing |
| Cleaning.ImputeCells | src/data_processing.py:17-27 | text columns are filled with the most-frequent value and numeric columns with the median; the column keeps its kind and length |
| Cleaning.Impute | src/data_processing.py:17-27 | the column names and their order are unchanged, every column is complete, and each column is its imputed version |
| Cleaning.CleanReviewText | src/data_processing.py:30-31 | when review_text exists, each of its cells becomes clean_text of the old cell, with missing read as ""; all other columns are untouched; without the column the frame is unchanged |
| Cleaning.CleanDataShape | src/data_processing.py:13-33 | after clean_data an input column exists if and only if at least half its cells were present; no new column appears; no cell is missing |
| Cleaning.CleanData | src/data_processing.py:13-33 | clean_data gives a well-formed table with the same rows; which columns survive and that no cell is missing is stated by CleanDataShape, and the review_text cleaning by CleanReviewText |
| Parsers.FitCode | src/data_processing.py:41-43 | fit_encoded is present if and only if the fit label is one of small/fit/large, and then it is 0, 1 or 2 |
| Parsers.FitCodeIsPosition | src/data_processing.py:42-43 | the code is k if and only if the label is the k-th of small, fit, large |
| Parsers.ParseNumber | src/data_processing.py:49 | a number read by to_numeric is non-negative and its text is digits with at most one point and at least one digit; a digit string reads as its value |
| Parsers.ParseDecimal | src/data_processing.py:49 | digits around one point, with at least one digit in all, read as the whole part plus the fraction digits over their power of ten |
| Parsers.DecimalExamples | src/data_processing.py:49 | ".5" reads as 0.5 and "5." as 5.0, while a lone "." is missing |
| Parsers.ParseWeight | src/data_processing.py:47-49 | a missing weight stays missing; a parsed weight is non-negative |
| Parsers.WeightRoundTrip | src/data_processing.py:47-49 | "<n>lbs" parses back to n |
| Parsers.HalfPoundWeight | src/data_processing.py:47-49 | ".5lbs" parses to 0.5 |
| Parsers.ConvertHeight | src/data_processing.py:53-62 | missing stays missing; an accepted height has exactly one foot mark |
| Parsers.ConvertHeightAccepts | src/data_processing.py:53-62 | feet' + rest, where feet is digits and rest is digits once its '"' marks are removed and it is stripped, converts to 12 × feet + inches |
| Parsers.ConvertHeightShape | src/data_processing.py:56-61 | every accepted height splits as feet ' rest with digit feet and digit inches, and its value is 12 × feet + inches (the converse of ConvertHeightAccepts) |
| Parsers.HeightRoundTrip | src/data_processing.py:53-62 | the dataset's format <feet>' <inches>" converts to 12 × feet + inches |
| Parsers.HeightExamples | src/data_processing.py:53-62 | 5' 8" gives 68 and 5ft8 gives missing |
| Parsers.Bmi | src/data_processing.py:66-67 | BMI is present if and only if height and weight are both present and positive, and then BMI × height² = 703 × weight |
| Parsers.BustBand | src/data_processing.py:71 | bust_band is present if and only if the size has a digit, and then it is the value of the first maximal run of digits |
| Parsers.BustCup | src/data_processing.py:72 | bust_cup is present if and only if the size has a letter, and then it is the last maximal run of letters, lower-cased |
| Parsers.CupCode | src/data_processing.py:74-79 | the filled cup code is never missing, lies in [0, 7], and is 0 exactly for a missing or unknown cup |
| Parsers.CupLookup | src/data_processing.py:74-75 | the mapped cup code is present if and only if the cup is one of aa, a, b, c, d, dd, ddd, f, and then lies in [0.5, 7] |
| Parsers.CupCodeOrdered | src/data_processing.py:74 | the cup table aa, a, b, c, d, dd, ddd, f maps to strictly increasing positive codes |
| Parsers.BustRoundTrip | src/data_processing.py:70-72 | the size <band><cup letters> gives back the band and the lower-cased cup |
| Parsers.BustExample | src/data_processing.py:70-79 | 34dd gives band 34, cup dd, cup code 5 |
| LabelEncoding.Classes | src/data_processing.py:91-92 | the classes are strictly sorted, and a string is a class if and only if it is one of the values |
| LabelEncoding.Encode | src/data_processing.py:92 | one code per value, each below the number of classes and naming that value's class |
| LabelEncoding.EncodePreservesOrder | src/data_processing.py:92 | two values get equal codes if and only if they are equal, and a smaller code if and only if they sort first |
| LabelEncoding.EncodeOnto | src/data_processing.py:92 | every code below the number of classes is used |
| LabelEncoding.DecodeEncode | src/data_processing.py:92 | decoding the codes with the classes gives the values back |
| LabelEncoding.EncodeExample | src/data_processing.py:92 | b, a, b encode to 1, 0, 1 |
| FeatureEngineering.FullReview | src/data_processing.py:38 | a full review has no surrounding whitespace and is no longer than summary + 1 + text |
| FeatureEngineering.FullReviewJoins | src/data_processing.py:38 | two non-empty stripped parts are joined by exactly one space |
| FeatureEngineering.Engineer | src/data_processing.py:35-94 | feature_engineering gives a well-formed table with the same rows; what each block writes is stated by the Engineered lemmas below, and what it leaves alone by EngineerOthers |
| FeatureEngineering.EngineerOthers | src/data_processing.py:35-94 | every column feature_engineering does not write comes out as it went in |
| FeatureEngineering.EngineeredFullReview | src/data_processing.py:37-38 | full_review exists afterwards if and only if it existed or both review columns exist, and then row k is strip(summary + " " + text) |
| FeatureEngineering.EngineeredFit | src/data_processing.py:41-43 | fit_encoded exists afterwards if and only if it existed or fit exists, and then row k is the fit code of row k |
| FeatureEngineering.EngineeredWeight | src/data_processing.py:47-49 | weight exists afterwards if and only if it existed, and then it is numeric and holds the parsed weights |
| FeatureEngineering.EngineeredHeight | src/data_processing.py:52-63 | height exists afterwards if and only if it existed, and then row k is convert_height of row k |
| FeatureEngineering.EngineeredBmi | src/data_processing.py:66-67 | BMI exists afterwards if and only if it existed or both height and weight exist, and then row k is the BMI of row k's converted height and parsed weight |
| FeatureEngineering.EngineeredBust | src/data_processing.py:70-79 | with a bust size column, row k's bust_band, bust_cup and filled bust_cup_encoded are those of row k's size |
| FeatureEngineering.EngineeredCupComplete | src/data_processing.py:78-79 | no row of bust_cup_encoded is missing afterwards |
| FeatureEngineering.EngineeredLabels | src/data_processing.py:82-92 | `<feature>_encoded` exists afterwards if and only if it existed or the feature exists, and then it holds the label codes of the feature column read as strings |
| FeatureEngineering.Codes | src/data_processing.py:92 | every encoded value is present and lies in [0, number of classes) |
| Ranking.Mean | src/recommendation.py:60 | the mean is present if and only if some value is present |
| Ranking.MeanBounds | src/recommendation.py:60 | the mean lies within any lower and upper bound of the present values |
| Ranking.MeanExample | src/recommendation.py:60 | the mean of 2, missing, 4 is 3 |
| Ranking.MaxOf | src/recommendation.py:96 | the maximum is one of the scores and no score exceeds it |
| Ranking.FirstPresent | src/recommendation.py:97-98 | "first" is present if and only if some value is present, and then it is the first present value: every value before it is missing |
| Ranking.Items | src/recommendation.py:92 | the group keys are distinct, and a key is listed if and only if some row has that (present) item_id |
| Ranking.GroupOf | src/recommendation.py:93-99 | the aggregation of an item is keyed by that item; its fields are stated by GroupCount, GroupScore, GroupRatingPresent, GroupRatingBounds and GroupLabels |
| Ranking.Aggregate | src/recommendation.py:91-100 | one group per key, each the aggregation of its key's rows |
| Ranking.AggregateOnePerItem | src/recommendation.py:91-100 | no two groups share an item, and some group has item x if and only if some row has item x |
| Ranking.GroupCount | src/recommendation.py:95 | review_count is the number of the item's rows whose user_id is present |
| Ranking.GroupScore | src/recommendation.py:96 | similarity_score is one of the item's row scores and no row score of the item exceeds it |
| Ranking.GroupRatingPresent | src/recommendation.py:94 | average_rating is present if and only if some row of the item has a rating |
| Ranking.GroupRatingBounds | src/recommendation.py:94 | average_rating lies within any bounds of the item's ratings |
| Ranking.GroupLabels | src/recommendation.py:97-98 | when every row has category c and occasion o, so does the group |
| Ranking.SortDesc | src/recommendation.py:101 | the sorted groups are a permutation of the input in non-increasing score order |
| Ranking.Rank | src/recommendation.py:101-102 | min(top_n, number of groups) groups, non-increasing by score, drawn from the input, and no group left out scores above a kept one |
| Ranking.RankDistinct | src/recommendation.py:101-102 | ranking keeps the items distinct |
| Ranking.RankedGroups | src/recommendation.py:91-102 | the ranked aggregation has min(top_n, number of items) groups with distinct items, each the aggregation of an item that occurs |
| Ranking.ItemsNonEmpty | src/recommendation.py:92 | there is some group key if and only if some row has a present item_id |
| Recommending.LoadInteractions | src/recommendation.py:12-14 | after loading, the recommender holds the table |
| Recommending.NotLoadedIff | src/recommendation.py:18-19 | recommend_items fails with the not-loaded error if and only if nothing is loaded |
| Recommending.LoadedRecommends | src/recommendation.py:12-19 | after load_interactions, recommend_items never fails with the not-loaded error |
| Recommending.Matching | src/recommendation.py:22-25 | a row is selected if and only if its rented-for equals the occasion and its category equals the category; the selected rows are listed in increasing row order, as boolean selection keeps them |
| Recommending.NoMatchEmpty | src/recommendation.py:22-28 | when no row matches, the result is the empty list |
| Recommending.Embeddings | src/recommendation.py:40 | the embedding features are exactly the table's columns starting with text_emb_: each listed one is such a column, every such column is listed, and they keep table order |
| Recommending.Candidates | src/recommendation.py:31-41 | potential_features starts with the nine base features, everything after them is a column of the table, and every encoded feature the table has and every text_emb_ column is listed |
| Recommending.SimilarityFeatures | src/recommendation.py:43 | every similarity feature is a column of the table |
| Recommending.SimilarityFeaturesOrder | src/recommendation.py:31-43 | the similarity features are the base, encoded and embedding candidates the table has, in that order, with no feature twice |
| Recommending.UserRows | src/recommendation.py:52 | a row is the user's if and only if its user_id equals the user's id; there is none if and only if no row has that id |
| Recommending.NoUserRowsEmpty | src/recommendation.py:52-58 | when rows match but the user has no row, the result is the empty list |
| Recommending.UserVector | src/recommendation.py:60-69 | the user vector has one entry per similarity feature; the value of each entry is stated by UserVectorEntries |
| Recommending.UserVectorEntries | src/recommendation.py:60-69 | a user-vector entry is 0 when all the user's values of that feature are missing, and otherwise lies within any bounds of those values |
| Recommending.ItemVector | src/recommendation.py:72-81 | each item-matrix entry is the row's value, or 0 where it is missing |
| Recommending.Entries | src/recommendation.py:84-88 | one entry per selected row, keeping its category, occasion, item id and rating, counted exactly when its user_id is present, and scored by the similarity of the user vector and its item vector |
| Recommending.Truncate | src/recommendation.py:104 | astype(int) truncates toward zero |
| Recommending.ColumnsFault | src/recommendation.py:60-104 | no fault is reported if and only if item_id and rating exist and are numeric and every feature column is numeric; a text feature present in the table is reported first, and with numeric features a text rating is reported before the item_id cast |
| Recommending.RecommendItems | src/recommendation.py:16-105 | a successful result has at most top_n rows |
| Recommending.NonEmptyResult | src/recommendation.py:16-105 | a non-empty result is the ranked aggregation of the matching rows, scored against the mean of the user's rows over the similarity features |
| Recommending.RecommendationsRanked | src/recommendation.py:91-103 | every recommendation has the requested category and occasion, and scores do not increase down the list |
| Recommending.RecommendationsPerItem | src/recommendation.py:91-104 | a non-empty result holds min(top_n, number of matching items) rows, one per distinct item, each that item's aggregation |
| Recommending.RecommendSucceeds | src/recommendation.py:16-105 | when a table is loaded, some row matches, the user has rows, some similarity feature exists and every needed column is numeric, recommend_items succeeds with the ranked aggregation of the scored matching rows |
| Recommending.AnsweredPerItem | src/recommendation.py:91-104 | under the same conditions the result has min(top_n, number of matching items) rows, one per distinct item, each its aggregation, and it is non-empty if and only if top_n > 0 and some matching row has an item_id |
| Recommending.RecommendFaults | src/recommendation.py:60-104 | when rows match, the user has rows and some similarity feature exists but a needed column is missing or text, recommend_items fails with exactly the fault reported for the columns |

## Left out

- File input/output is not modelled. This covers `load_interactions`
  reading a pickle (the table is a parameter), `save_recommendations`,
  `save_preprocessed_data`, `save_user_interactions` and the paths in
  `Config`. Only `NUM_RECOMMENDATIONS` (src/config.py:17) appears, as
  `Recommending.DefaultTopN`.
- `generate_text_embeddings` and `scale_features` are not modelled, because
  they depend on a sentence-embedding model and on MinMaxScaler. The
  recommender treats every `text_emb_*` column the table has as a feature.
- Floating point is modelled as exact reals, and the BMI and mean are stated
  exactly. NaN is a missing cell. `np.nan_to_num`'s replacement of
  infinities is not modelled.
- `cosine_similarity` is the parameter `sim` of `recommend_items`, so no
  property of the cosine kernel is stated.
- Cleaning.ImputeCells: the fill values of `SimpleImputer` (the most
  frequent value and the median) are supplied by parameters and are not
  computed. sklearn dropping an all-missing column can only happen in a
  table with no rows after pruning, and it is not modelled.
- Cleaning.Prune: a column is kept when its present count is at least half
  the rows, as `dropna(thresh=len(df)*0.5)` does, and as the source's own
  comment says (more than 50% missing is dropped). So a column exactly half
  present is kept.
- Where the source calls a string method on a numeric column, the model
  reads the numeric cells as missing. This covers `.str.extract` on
  `bust size`, `split` in `convert_height`, `map` of `fit`, and comparing
  "rented for" or "category" with a string. In pandas a whole numeric
  column of this kind would raise, or would never compare equal.
  Two more cases of the same rule:
  - A numeric `review_summary` or `review_text` column reads as missing in
    the `full_review` block, so `full_review` is the other part stripped.
    In pandas, adding a float column and " " raises a TypeError
    (src/data_processing.py:38); that error is not modelled.
  - The fill of `bust_cup_encoded` reads the column as numbers. A text
    `bust_cup_encoded` column in a table without `bust size` therefore
    becomes 0 in every row. In pandas, `fillna(0)`
    (src/data_processing.py:79) keeps the present strings and fills only
    the missing cells.
- Cleaning.CleanData: its own contract states only well-formedness and the
  row count. The rest is stated by `CleanDataShape`, `Impute` and
  `CleanReviewText`.
- FeatureEngineering.Engineer: its own contract states only
  well-formedness and the row count. The blocks' effects are stated by
  `EngineerOthers` and the `Engineered` lemmas.
- Recommending.UserVector: its own contract states only the length. The
  entries are stated by `UserVectorEntries`.
- Ranking.GroupOf: its own contract states only the key. The fields are
  stated by `GroupCount`, `GroupScore`, `GroupRatingPresent`,
  `GroupRatingBounds` and `GroupLabels`.
- Parsers.ParseWeight: `pd.to_numeric` is modelled for strings of digits
  with at most one decimal point and at least one digit, so "5", "5.25",
  ".5" and "5." are numbers and a lone "." is missing. Signs, exponents,
  whitespace inside the number and "inf"/"nan" spellings read as missing.
  Its own contract states only the missing case and non-negativity; the
  accepted form is stated by `WeightRoundTrip`, `HalfPoundWeight`,
  `ParseDecimal` and `DecimalExamples`.
- The model works on ASCII. Python's Unicode `isdigit`, `lower`,
  whitespace classes and `\d` beyond ASCII are not modelled.
- `astype(str)` on a numeric categorical column is the parameter `show`.
  A missing categorical value reads as "nan", as `astype(str)` renders it,
  and is encoded like any other class.
- `float(user_id)` is modelled with the user id already an integer. A
  `user_id` string that does not parse (a ValueError) is not modelled.
- Ranking.GroupCount: review_count counts the group's rows whose user_id
  is present (pandas' `count`), which is not always the number of rows.
- Ranking.Aggregate: groups come in first-appearance order, not pandas'
  sorted key order. The order of groups with equal scores after
  `sort_values` is left unstated, because the quicksort pandas uses is not
  stable.
- Recommending.ColumnsFault:
  - A text `item_id` or `rating` column, or a text similarity feature, is
    reported as an error (`NotNumeric`).
  - In pandas, `astype('int')` would convert an `item_id` column of digit
    strings; the model reports that case as `NotNumeric` too.
  - Errors follow the source's order of evaluation: the user mean, then
    the rating mean, then the item_id cast.
- Recommending.RecommendItems:
  - A negative `top_n` is not modelled, because `top_n` is a `nat`.
  - The debugging `print` calls are left out.
  - An empty result is the empty list, which is also what happens when no
    similarity feature exists: pandas' `.empty` holds for a selection with
    no columns.
  - Its own contract states only the bound of `top_n` rows. The rest of
    `recommend_items`' behaviour is stated by the lemmas about it:
    `NotLoadedIff`, `NoMatchEmpty`, `NoUserRowsEmpty`, `NonEmptyResult`,
    `RecommendationsRanked`, `RecommendationsPerItem`, `RecommendSucceeds`,
    `AnsweredPerItem` and `RecommendFaults`.
- Parsers.ConvertHeight: its own contract states only the missing case and
  the single foot mark. What it accepts and the value it gives are stated
  by `ConvertHeightAccepts` and `ConvertHeightShape`.
- `main.py`, `app.py`, `checknan.py`, `src/recommendation_bk.py`,
  `src/data_ingestion.py` and `LoggerFactory` are not part of this model.
