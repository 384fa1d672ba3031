/** sklearn's LabelEncoder as feature_engineering uses it (src/data_processing.py):
    the classes are the distinct values in sorted order, and each value is
    encoded as the position of its class. */
module LabelEncoding {

  /** Python's string order: lexicographic by code point, a proper prefix first. */
  predicate Less(a: string, b: string)
    decreases |a|
  {
    if |b| == 0 then false
    else if |a| == 0 then true
    else if a[0] != b[0] then a[0] < b[0]
    else Less(a[1..], b[1..])
  }

  lemma {:induction false} LessIrreflexive(a: string)
    ensures !Less(a, a)
    decreases |a|
  {
    if |a| > 0 {
      LessIrreflexive(a[1..]);
    }
  }

  lemma {:induction false} LessAsymmetric(a: string, b: string)
    ensures Less(a, b) ==> !Less(b, a)
    decreases |a|
  {
    if |a| > 0 && |b| > 0 && a[0] == b[0] {
      LessAsymmetric(a[1..], b[1..]);
    }
  }

  lemma {:induction false} LessTransitive(a: string, b: string, c: string)
    requires Less(a, b) && Less(b, c)
    ensures Less(a, c)
    decreases |a|
  {
    if |a| > 0 && a[0] == b[0] && b[0] == c[0] {
      LessTransitive(a[1..], b[1..], c[1..]);
    }
  }

  lemma {:induction false} LessTotal(a: string, b: string)
    ensures a == b || Less(a, b) || Less(b, a)
    decreases |a|
  {
    if |a| > 0 && |b| > 0 && a[0] == b[0] {
      LessTotal(a[1..], b[1..]);
      assert a == [a[0]] + a[1..] && b == [b[0]] + b[1..];
    }
  }

  predicate StrictlySorted(s: seq<string>) {
    forall i, j :: 0 <= i < j < |s| ==> Less(s[i], s[j])
  }

  /** Adds v to a sorted list of distinct strings, keeping it sorted and distinct. */
  function Insert(s: seq<string>, v: string): (r: seq<string>)
    requires StrictlySorted(s)
    ensures StrictlySorted(r)
    ensures forall x :: x in r <==> x in s || x == v
    decreases |s|
  {
    if |s| == 0 then [v]
    else if v == s[0] then s
    else if Less(v, s[0]) then
      InsertFront(s, v);
      [v] + s
    else
      var t := Insert(s[1..], v);
      InsertBehind(s, v, t);
      [s[0]] + t
  }

  lemma InsertFront(s: seq<string>, v: string)
    requires StrictlySorted(s) && |s| > 0 && Less(v, s[0])
    ensures StrictlySorted([v] + s)
  {
    var r := [v] + s;
    forall i, j | 0 <= i < j < |r| ensures Less(r[i], r[j]) {
      if i == 0 && j > 1 {
        LessTransitive(v, s[0], s[j - 1]);
      }
    }
  }

  lemma InsertBehind(s: seq<string>, v: string, t: seq<string>)
    requires StrictlySorted(s) && |s| > 0 && v != s[0] && !Less(v, s[0])
    requires StrictlySorted(t)
    requires forall x :: x in t <==> x in s[1..] || x == v
    ensures StrictlySorted([s[0]] + t)
  {
    LessTotal(v, s[0]);
    var r := [s[0]] + t;
    forall i, j | 0 <= i < j < |r| ensures Less(r[i], r[j]) {
      if i == 0 {
        assert r[j] in t;
        if r[j] != v {
          var m :| 1 <= m < |s| && s[m] == r[j];
        }
      }
    }
  }

  /** le.classes_: the distinct values, sorted. */
  function Classes(values: seq<string>): (r: seq<string>)
    ensures StrictlySorted(r)
    ensures forall x :: x in r <==> x in values
  {
    if |values| == 0 then []
    else
      var init := values[..|values| - 1];
      assert values == init + [values[|values| - 1]];
      Insert(Classes(init), values[|values| - 1])
  }

  /** The position of a member of a list. */
  function IndexOf(s: seq<string>, v: string): (i: nat)
    requires v in s
    ensures i < |s| && s[i] == v
  {
    if s[0] == v then 0 else 1 + IndexOf(s[1..], v)
  }

  /** In a sorted list of distinct strings, positions follow the string order. */
  lemma SortedPositions(s: seq<string>, i: nat, j: nat)
    requires StrictlySorted(s) && i < |s| && j < |s|
    ensures i < j <==> Less(s[i], s[j])
    ensures i == j <==> s[i] == s[j]
  {
    LessIrreflexive(s[i]);
    if j < i {
      LessAsymmetric(s[j], s[i]);
    }
  }

  /** le.fit_transform(values): each value is replaced by the position of its class. */
  function Encode(values: seq<string>): (codes: seq<nat>)
    ensures |codes| == |values|
    ensures forall k :: 0 <= k < |codes| ==>
      codes[k] < |Classes(values)| && Classes(values)[codes[k]] == values[k]
  {
    var classes := Classes(values);
    seq(|values|, k requires 0 <= k < |values| => IndexOf(classes, values[k]))
  }

  /** Two values get the same code exactly when they are equal, and a smaller
      code exactly when they sort first. */
  lemma EncodePreservesOrder(values: seq<string>, k: nat, l: nat)
    requires k < |values| && l < |values|
    ensures Encode(values)[k] == Encode(values)[l] <==> values[k] == values[l]
    ensures Encode(values)[k] < Encode(values)[l] <==> Less(values[k], values[l])
  {
    var codes := Encode(values);
    SortedPositions(Classes(values), codes[k], codes[l]);
  }

  /** Every code below the number of classes is used. */
  lemma EncodeOnto(values: seq<string>, c: nat)
    requires c < |Classes(values)|
    ensures exists k :: 0 <= k < |values| && Encode(values)[k] == c
  {
    var x := Classes(values)[c];
    assert x in values;
    var k :| 0 <= k < |values| && values[k] == x;
    SortedPositions(Classes(values), c, Encode(values)[k]);
  }

  /** le.inverse_transform(codes): the class at each code. */
  function Decode(classes: seq<string>, codes: seq<nat>): (values: seq<string>)
    requires forall k :: 0 <= k < |codes| ==> codes[k] < |classes|
    ensures |values| == |codes|
  {
    seq(|codes|, k requires 0 <= k < |codes| => classes[codes[k]])
  }

  /** Decoding the codes with the fitted classes gives the values back. */
  lemma DecodeEncode(values: seq<string>)
    ensures Decode(Classes(values), Encode(values)) == values
  {
    var back := Decode(Classes(values), Encode(values));
    assert forall k :: 0 <= k < |values| ==> back[k] == values[k];
  }

  /** ["b", "a", "b"] is encoded as [1, 0, 1]. */
  lemma EncodeExample()
    ensures Encode(["b", "a", "b"]) == [1, 0, 1]
  {
    var values := ["b", "a", "b"];
    assert Less("a", "b");
    assert Classes(["b"]) == ["b"];
    assert Classes(["b", "a"]) == Insert(["b"], "a") by {
      assert ["b", "a"][..1] == ["b"];
    }
    assert Classes(["b", "a"]) == ["a", "b"];
    assert values[..2] == ["b", "a"];
    assert Classes(values) == Insert(["a", "b"], "b");
    assert Classes(values) == ["a", "b"];
  }
}
