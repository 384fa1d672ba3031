/** The end of Recommender.recommend_items (src/recommendation.py): the filtered
    rows grouped by item_id and summarised, then sorted by similarity and cut
    to the requested length. */
module Ranking {
  import opened Wrappers
  import opened Seqs

  // ---------------------------------------------------------------- mean, max, first

  /** The sum of the present values. */
  function SumPresent(s: seq<Option<real>>): real
    decreases |s|
  {
    if |s| == 0 then 0.0 else s[0].GetOr(0.0) + SumPresent(s[1..])
  }

  /** c * x as repeated addition, which keeps the bound proofs linear. */
  function Times(c: nat, x: real): real {
    if c == 0 then 0.0 else x + Times(c - 1, x)
  }

  lemma {:induction false} TimesProduct(c: nat, x: real)
    ensures Times(c, x) == c as real * x
  {
    if c > 0 {
      TimesProduct(c - 1, x);
    }
  }

  /** The number of present values. */
  function CountPresent(s: seq<Option<real>>): (n: nat)
    ensures n <= |s|
    ensures n == 0 <==> forall i :: 0 <= i < |s| ==> s[i].None?
    decreases |s|
  {
    if |s| == 0 then 0
    else (if s[0].Some? then 1 else 0) + CountPresent(s[1..])
  }

  /** pandas' mean: the average of the present values; missing when none is. */
  function Mean(s: seq<Option<real>>): (r: Option<real>)
    ensures r.Some? <==> exists i :: 0 <= i < |s| && s[i].Some?
  {
    var n := CountPresent(s);
    if n == 0 then None else Some(SumPresent(s) / n as real)
  }

  lemma {:induction false} SumBounds(s: seq<Option<real>>, lo: real, hi: real)
    requires forall i :: 0 <= i < |s| && s[i].Some? ==> lo <= s[i].value <= hi
    ensures Times(CountPresent(s), lo) <= SumPresent(s) <= Times(CountPresent(s), hi)
    decreases |s|
  {
    if |s| > 0 {
      SumBounds(s[1..], lo, hi);
      SumStep(CountPresent(s), SumPresent(s), CountPresent(s[1..]), SumPresent(s[1..]), s[0], lo, hi);
    }
  }

  lemma SumStep(count: nat, sum: real, c: nat, partial: real, v: Option<real>, lo: real, hi: real)
    requires Times(c, lo) <= partial <= Times(c, hi)
    requires v.Some? ==> lo <= v.value <= hi
    requires count == c + (if v.Some? then 1 else 0) && sum == partial + v.GetOr(0.0)
    ensures Times(count, lo) <= sum <= Times(count, hi)
  {
  }

  /** The mean lies between any lower and upper bound of the present values. */
  lemma MeanBounds(s: seq<Option<real>>, lo: real, hi: real)
    requires forall i :: 0 <= i < |s| && s[i].Some? ==> lo <= s[i].value <= hi
    requires Mean(s).Some?
    ensures lo <= Mean(s).value <= hi
  {
    var n, sum := CountPresent(s), SumPresent(s);
    assert Mean(s) == Some(sum / n as real);
    SumBounds(s, lo, hi);
    DivideBounds(sum, n, lo, hi);
  }

  lemma DivideBounds(sum: real, c: nat, lo: real, hi: real)
    requires c > 0 && Times(c, lo) <= sum <= Times(c, hi)
    ensures lo <= sum / c as real <= hi
  {
    TimesProduct(c, lo);
    TimesProduct(c, hi);
    var n := c as real;
    var m := sum / n;
    assert m * n == sum;
    assert (m - lo) * n >= 0.0;
    assert (hi - m) * n >= 0.0;
  }

  /** The mean of 2, a missing value and 4 is 3. */
  lemma MeanExample()
    ensures Mean([Some(2.0), None, Some(4.0)]) == Some(3.0)
  {
    var s: seq<Option<real>> := [Some(2.0), None, Some(4.0)];
    assert s[1..] == [None, Some(4.0)] && s[1..][1..] == [Some(4.0)];
    assert CountPresent(s) == 2;
    assert SumPresent(s) == 6.0;
  }

  /** The largest of a non-empty list of numbers. */
  function MaxOf(s: seq<real>): (m: real)
    requires |s| > 0
    ensures m in s
    ensures forall i :: 0 <= i < |s| ==> s[i] <= m
    decreases |s|
  {
    if |s| == 1 then s[0]
    else
      var rest := MaxOf(s[1..]);
      if s[0] >= rest then s[0] else rest
  }

  /** pandas' "first" aggregation: the first present value. */
  function FirstPresent<T(==)>(s: seq<Option<T>>): (r: Option<T>)
    ensures r.Some? <==> exists i :: 0 <= i < |s| && s[i].Some?
    ensures r.Some? ==> r in s
    ensures r.Some? ==> exists i :: 0 <= i < |s| && s[i] == r && forall j :: 0 <= j < i ==> s[j].None?
    decreases |s|
  {
    if |s| == 0 then None
    else if s[0].Some? then s[0]
    else
      var rest := FirstPresent(s[1..]);
      assert forall i :: 1 <= i < |s| ==> s[1..][i - 1] == s[i];
      rest
  }

  // ---------------------------------------------------------------- grouping

  /** One filtered row as the aggregation reads it: its item_id, its rating,
      whether its user_id is present (what "count" counts), its similarity
      score, and its category and "rented for" values. */
  datatype Entry = Entry(item: Option<real>, rating: Option<real>, counted: bool, score: real,
                         category: Option<string>, rentedFor: Option<string>)

  /** One output row of the aggregation. */
  datatype Group = Group(item: real, averageRating: Option<real>, reviewCount: nat,
                         similarityScore: real, category: Option<string>, rentedFor: Option<string>)

  function ItemOf(g: Group): real {
    g.item
  }

  /** Some row has item id x. */
  predicate Occurs(es: seq<Entry>, x: real) {
    exists i :: 0 <= i < |es| && es[i].item == Some(x)
  }

  /** The distinct present item ids, in order of first appearance; groupby drops
      rows whose key is missing. */
  function Items(es: seq<Entry>): (keys: seq<real>)
    ensures Distinct(keys)
    ensures forall x :: x in keys <==> Occurs(es, x)
    decreases |es|
  {
    if |es| == 0 then []
    else
      var init := es[..|es| - 1];
      var keys := Items(init);
      assert forall i :: 0 <= i < |init| ==> init[i] == es[i];
      assert forall x :: Occurs(es, x) <==> Occurs(init, x) || es[|es| - 1].item == Some(x);
      var last := es[|es| - 1].item;
      if last.Some? && last.value !in keys then keys + [last.value] else keys
  }

  /** The rows of one item. */
  function RowsOf(es: seq<Entry>, x: real): (rows: seq<Entry>)
    ensures forall i :: 0 <= i < |rows| ==> rows[i] in es && rows[i].item == Some(x)
    ensures forall i :: 0 <= i < |es| && es[i].item == Some(x) ==> es[i] in rows
  {
    Filter(es, (e: Entry) => e.item == Some(x))
  }

  function Ratings(rows: seq<Entry>): (r: seq<Option<real>>)
    ensures |r| == |rows| && forall i :: 0 <= i < |rows| ==> r[i] == rows[i].rating
  {
    seq(|rows|, i requires 0 <= i < |rows| => rows[i].rating)
  }

  function Scores(rows: seq<Entry>): (r: seq<real>)
    ensures |r| == |rows| && forall i :: 0 <= i < |rows| ==> r[i] == rows[i].score
  {
    seq(|rows|, i requires 0 <= i < |rows| => rows[i].score)
  }

  function Categories(rows: seq<Entry>): (r: seq<Option<string>>)
    ensures |r| == |rows| && forall i :: 0 <= i < |rows| ==> r[i] == rows[i].category
  {
    seq(|rows|, i requires 0 <= i < |rows| => rows[i].category)
  }

  function Occasions(rows: seq<Entry>): (r: seq<Option<string>>)
    ensures |r| == |rows| && forall i :: 0 <= i < |rows| ==> r[i] == rows[i].rentedFor
  {
    seq(|rows|, i requires 0 <= i < |rows| => rows[i].rentedFor)
  }

  /** The aggregation of one item: mean rating, count of present user ids,
      largest score, first category and first occasion. */
  function GroupOf(es: seq<Entry>, x: real): (g: Group)
    requires Occurs(es, x)
    ensures g.item == x
  {
    var rows := RowsOf(es, x);
    RowsNonEmpty(es, x);
    Group(x, Mean(Ratings(rows)), Count(rows, (e: Entry) => e.counted), MaxOf(Scores(rows)),
          FirstPresent(Categories(rows)), FirstPresent(Occasions(rows)))
  }

  lemma RowsNonEmpty(es: seq<Entry>, x: real)
    requires Occurs(es, x)
    ensures |RowsOf(es, x)| > 0
  {
    var i :| 0 <= i < |es| && es[i].item == Some(x);
    assert es[i] in RowsOf(es, x);
  }

  /** groupby("item_id").agg(...).reset_index(): one group per distinct item. */
  function Aggregate(es: seq<Entry>): (groups: seq<Group>)
    ensures |groups| == |Items(es)|
    ensures forall i :: 0 <= i < |groups| ==> groups[i] == GroupOf(es, Items(es)[i])
  {
    var keys := Items(es);
    seq(|keys|, i requires 0 <= i < |keys| => GroupOf(es, keys[i]))
  }

  /** Aggregation gives exactly one group per distinct present item id. */
  lemma AggregateOnePerItem(es: seq<Entry>)
    ensures DistinctBy(Aggregate(es), ItemOf)
    ensures forall x :: (exists i :: 0 <= i < |Aggregate(es)| && Aggregate(es)[i].item == x) <==> Occurs(es, x)
  {
    var groups, keys := Aggregate(es), Items(es);
    assert forall i :: 0 <= i < |groups| ==> ItemOf(groups[i]) == keys[i];
    forall x ensures (exists i :: 0 <= i < |groups| && groups[i].item == x) <==> Occurs(es, x) {
      if Occurs(es, x) {
        assert x in keys;
        var i :| 0 <= i < |keys| && keys[i] == x;
        assert groups[i].item == x;
      }
    }
  }

  /** A group's review count is the number of its item's rows with a user id. */
  lemma GroupCount(es: seq<Entry>, x: real)
    requires Occurs(es, x)
    ensures GroupOf(es, x).reviewCount == Count(es, (e: Entry) => e.item == Some(x) && e.counted)
  {
    var rows := RowsOf(es, x);
    var isX := (e: Entry) => e.item == Some(x);
    var both := (e: Entry) => e.item == Some(x) && e.counted;
    var counted := (e: Entry) => e.counted;
    FilterFilter(es, both, isX);
    FilterSame(rows, counted, both);
  }

  /** A group's score is the largest of its item's row scores. */
  lemma GroupScore(es: seq<Entry>, x: real)
    requires Occurs(es, x)
    ensures exists i :: 0 <= i < |es| && es[i].item == Some(x) && es[i].score == GroupOf(es, x).similarityScore
    ensures forall i :: 0 <= i < |es| && es[i].item == Some(x) ==> es[i].score <= GroupOf(es, x).similarityScore
  {
    var g, rows := GroupOf(es, x), RowsOf(es, x);
    var scores := Scores(rows);
    var j :| 0 <= j < |scores| && scores[j] == g.similarityScore;
    assert rows[j] in es;
    forall i | 0 <= i < |es| && es[i].item == Some(x) ensures es[i].score <= g.similarityScore {
      var l :| 0 <= l < |rows| && rows[l] == es[i];
      assert scores[l] == es[i].score;
    }
  }

  /** A group's average rating is present exactly when one of its item's rows
      has a rating. */
  lemma GroupRatingPresent(es: seq<Entry>, x: real)
    requires Occurs(es, x)
    ensures GroupOf(es, x).averageRating.Some? <==>
      exists i :: 0 <= i < |es| && es[i].item == Some(x) && es[i].rating.Some?
  {
    var rows := RowsOf(es, x);
    var ratings := Ratings(rows);
    assert GroupOf(es, x).averageRating == Mean(ratings);
    assert (exists l :: 0 <= l < |ratings| && ratings[l].Some?) <==>
      (exists l :: 0 <= l < |rows| && rows[l].rating.Some?);
    RatingPresentLink(es, x, rows, Mean(ratings));
  }

  lemma RatingPresentLink(es: seq<Entry>, x: real, rows: seq<Entry>, m: Option<real>)
    requires forall i :: 0 <= i < |rows| ==> rows[i] in es && rows[i].item == Some(x)
    requires forall i :: 0 <= i < |es| && es[i].item == Some(x) ==> es[i] in rows
    requires m.Some? <==> exists l :: 0 <= l < |rows| && rows[l].rating.Some?
    ensures m.Some? <==> exists i :: 0 <= i < |es| && es[i].item == Some(x) && es[i].rating.Some?
  {
    if m.Some? {
      var l :| 0 <= l < |rows| && rows[l].rating.Some?;
      assert rows[l] in es;
    }
  }

  /** Two predicates that agree on a list filter it alike. */
  lemma {:induction false} FilterSame<T>(s: seq<T>, p: T -> bool, q: T -> bool)
    requires forall i :: 0 <= i < |s| ==> p(s[i]) == q(s[i])
    ensures Filter(s, p) == Filter(s, q)
    decreases |s|
  {
    if |s| > 0 {
      FilterSame(s[1..], p, q);
    }
  }

  /** A group's average rating lies within any bounds of its item's ratings. */
  lemma GroupRatingBounds(es: seq<Entry>, x: real, lo: real, hi: real)
    requires Occurs(es, x)
    requires forall i :: 0 <= i < |es| && es[i].item == Some(x) && es[i].rating.Some? ==>
      lo <= es[i].rating.value <= hi
    requires GroupOf(es, x).averageRating.Some?
    ensures lo <= GroupOf(es, x).averageRating.value <= hi
  {
    var rows := RowsOf(es, x);
    var ratings := Ratings(rows);
    forall l | 0 <= l < |ratings| && ratings[l].Some? ensures lo <= ratings[l].value <= hi {
      assert rows[l] in es;
    }
    MeanBounds(ratings, lo, hi);
  }

  /** When every row carries the same category and occasion, so does every group. */
  lemma GroupLabels(es: seq<Entry>, x: real, category: string, occasion: string)
    requires Occurs(es, x)
    requires forall i :: 0 <= i < |es| ==> es[i].category == Some(category) && es[i].rentedFor == Some(occasion)
    ensures GroupOf(es, x).category == Some(category)
    ensures GroupOf(es, x).rentedFor == Some(occasion)
  {
    var rows := RowsOf(es, x);
    var g := GroupOf(es, x);
    var l :| 0 <= l < |Categories(rows)| && Categories(rows)[l] == g.category;
    assert rows[l] in es;
    var m :| 0 <= m < |Occasions(rows)| && Occasions(rows)[m] == g.rentedFor;
    assert rows[m] in es;
  }

  // ---------------------------------------------------------------- sorting

  /** Non-increasing by similarity score. */
  predicate SortedDesc(s: seq<Group>) {
    forall i, j :: 0 <= i < j < |s| ==> s[i].similarityScore >= s[j].similarityScore
  }

  /** Places g in a list sorted by non-increasing score. */
  function InsertDesc(g: Group, s: seq<Group>): (r: seq<Group>)
    requires SortedDesc(s)
    ensures SortedDesc(r)
    ensures multiset(r) == multiset(s) + multiset{g}
    decreases |s|
  {
    if |s| == 0 then [g]
    else if g.similarityScore >= s[0].similarityScore then [g] + s
    else
      var rest := InsertDesc(g, s[1..]);
      assert s == [s[0]] + s[1..];
      InsertBehindDesc(g, s, rest);
      [s[0]] + rest
  }

  lemma InsertBehindDesc(g: Group, s: seq<Group>, rest: seq<Group>)
    requires SortedDesc(s) && |s| > 0 && g.similarityScore < s[0].similarityScore
    requires SortedDesc(rest) && multiset(rest) == multiset(s[1..]) + multiset{g}
    ensures SortedDesc([s[0]] + rest)
  {
    forall i | 0 <= i < |rest| ensures rest[i].similarityScore <= s[0].similarityScore {
      assert rest[i] in multiset(rest);
      if rest[i] != g {
        assert rest[i] in s[1..];
      }
    }
  }

  /** sort_values(by="similarity_score", ascending=False); the order of equal
      scores is not fixed. */
  function SortDesc(s: seq<Group>): (r: seq<Group>)
    ensures SortedDesc(r)
    ensures multiset(r) == multiset(s)
    decreases |s|
  {
    if |s| == 0 then []
    else
      assert s == [s[0]] + s[1..];
      InsertDesc(s[0], SortDesc(s[1..]))
  }

  function Min(a: nat, b: nat): nat {
    if a <= b then a else b
  }

  /** sort_values(...).head(topN): the topN best-scoring groups, best first. */
  function Rank(groups: seq<Group>, topN: nat): (r: seq<Group>)
    ensures |r| == Min(topN, |groups|)
    ensures SortedDesc(r)
    ensures multiset(r) <= multiset(groups)
    ensures forall g :: g in multiset(groups) - multiset(r) ==>
      forall i :: 0 <= i < |r| ==> g.similarityScore <= r[i].similarityScore
  {
    var sorted := SortDesc(groups);
    var n := Min(topN, |groups|);
    TakeBest(groups, sorted, n);
    sorted[..n]
  }

  lemma TakeBest(groups: seq<Group>, sorted: seq<Group>, n: nat)
    requires SortedDesc(sorted) && multiset(sorted) == multiset(groups) && n <= |groups|
    ensures |sorted| == |groups|
    ensures multiset(sorted[..n]) <= multiset(groups)
    ensures forall g :: g in multiset(groups) - multiset(sorted[..n]) ==>
      forall i :: 0 <= i < n ==> g.similarityScore <= sorted[i].similarityScore
  {
    assert |multiset(sorted)| == |multiset(groups)|;
    assert sorted == sorted[..n] + sorted[n..];
    assert multiset(groups) - multiset(sorted[..n]) == multiset(sorted[n..]);
    forall g | g in multiset(sorted[n..])
      ensures forall i :: 0 <= i < n ==> g.similarityScore <= sorted[i].similarityScore
    {
      var j :| 0 <= j < |sorted[n..]| && sorted[n..][j] == g;
      assert sorted[n + j] == g;
    }
  }

  /** Ranking keeps the groups' items distinct. */
  lemma RankDistinct(groups: seq<Group>, topN: nat)
    requires DistinctBy(groups, ItemOf)
    ensures DistinctBy(Rank(groups, topN), ItemOf)
  {
    SubMultisetDistinct(Rank(groups, topN), groups);
  }

  /** Part of a list with distinct items has distinct items. */
  lemma SubMultisetDistinct(r: seq<Group>, groups: seq<Group>)
    requires multiset(r) <= multiset(groups) && DistinctBy(groups, ItemOf)
    ensures DistinctBy(r, ItemOf)
  {
    forall i, j | 0 <= i < j < |r| ensures ItemOf(r[i]) != ItemOf(r[j]) {
      assert r[i] in multiset(groups) && r[j] in multiset(groups);
      var a :| 0 <= a < |groups| && groups[a] == r[i];
      var b :| 0 <= b < |groups| && groups[b] == r[j];
      TwiceInMultiset(r, i, j);
      OnceInMultiset(groups, a);
    }
  }

  /** The ranked aggregation: as many groups as asked for or as there are
      items, no item twice, and each group the aggregation of its item. */
  lemma RankedGroups(es: seq<Entry>, topN: nat)
    ensures var r := Rank(Aggregate(es), topN);
      && |r| == Min(topN, |Items(es)|)
      && DistinctBy(r, ItemOf)
      && forall i :: 0 <= i < |r| ==> Occurs(es, r[i].item) && r[i] == GroupOf(es, r[i].item)
  {
    var groups := Aggregate(es);
    var r := Rank(groups, topN);
    AggregateOnePerItem(es);
    RankDistinct(groups, topN);
    forall i | 0 <= i < |r| ensures Occurs(es, r[i].item) && r[i] == GroupOf(es, r[i].item) {
      assert r[i] in multiset(groups);
      var a :| 0 <= a < |groups| && groups[a] == r[i];
      assert Items(es)[a] in Items(es);
    }
  }

  /** There is some group exactly when some row has an item id. */
  lemma ItemsNonEmpty(es: seq<Entry>)
    ensures |Items(es)| > 0 <==> exists i :: 0 <= i < |es| && es[i].item.Some?
  {
    var keys := Items(es);
    if exists i :: 0 <= i < |es| && es[i].item.Some? {
      var i :| 0 <= i < |es| && es[i].item.Some?;
      assert Occurs(es, es[i].item.value);
      assert es[i].item.value in keys;
    }
    if |keys| > 0 {
      assert keys[0] in keys;
      assert Occurs(es, keys[0]);
    }
  }

  /** When every row carries the same category and occasion, so does every
      ranked group. */
  lemma RankedLabels(es: seq<Entry>, topN: nat, category: string, occasion: string)
    requires forall i :: 0 <= i < |es| ==> es[i].category == Some(category) && es[i].rentedFor == Some(occasion)
    ensures var r := Rank(Aggregate(es), topN);
      forall i :: 0 <= i < |r| ==> r[i].category == Some(category) && r[i].rentedFor == Some(occasion)
  {
    var r := Rank(Aggregate(es), topN);
    RankedGroups(es, topN);
    forall i | 0 <= i < |r| ensures r[i].category == Some(category) && r[i].rentedFor == Some(occasion) {
      GroupLabels(es, r[i].item, category, occasion);
    }
  }

  /** An element at two positions occurs at least twice. */
  lemma {:induction false} TwiceInMultiset(s: seq<Group>, i: nat, j: nat)
    requires i < j < |s|
    ensures s[i] == s[j] ==> multiset(s)[s[i]] >= 2
  {
    var x := s[i];
    var y := s[j];
    assert s == s[..i] + [x] + s[i + 1..j] + [y] + s[j + 1..];
    assert multiset(s) == multiset(s[..i]) + multiset{x} + multiset(s[i + 1..j]) + multiset{y} + multiset(s[j + 1..]);
  }

  /** In a list with distinct items, an element occurs once. */
  lemma {:induction false} OnceInMultiset(s: seq<Group>, a: nat)
    requires DistinctBy(s, ItemOf) && a < |s|
    ensures multiset(s)[s[a]] == 1
  {
    var x := s[a];
    assert s == s[..a] + [x] + s[a + 1..];
    assert x !in s[..a] by {
      forall k | 0 <= k < a ensures s[..a][k] != x {
        assert ItemOf(s[k]) != ItemOf(s[a]);
      }
    }
    assert x !in s[a + 1..] by {
      forall k | a < k < |s| ensures s[k] != x {
        assert ItemOf(s[a]) != ItemOf(s[k]);
      }
    }
    assert multiset(s) == multiset(s[..a]) + multiset{x} + multiset(s[a + 1..]);
  }
}
