/** TextCleaner.clean_text (src/utils.py): lower-case, keep only [a-z] and
    whitespace, strip; anything that is not a string becomes "". */
module TextCleaner {
  import opened Wrappers
  import opened Seqs
  import opened Text

  /** The characters that re.sub(r"[^a-z\s]", "", text) keeps. */
  predicate Kept(c: char) { IsLower(c) || IsSpace(c) }

  /** Reference definition: the ASCII letters of `s`, lower-cased, in order. */
  function LettersLowered(s: string): string
    decreases |s|
  {
    if |s| == 0 then []
    else (if IsLetter(s[0]) then [LowerChar(s[0])] else []) + LettersLowered(s[1..])
  }

  /** clean_text; a non-string argument is modelled as None. */
  function CleanText(text: Option<string>): (r: string)
    ensures text.None? ==> r == ""
    ensures forall i :: 0 <= i < |r| ==> IsLower(r[i]) || IsSpace(r[i])
    ensures r == [] || (!IsSpace(r[0]) && !IsSpace(r[|r| - 1]))
    ensures text.Some? ==> |r| <= |text.value|
  {
    match text
    case None => ""
    case Some(s) =>
      var kept := Filter(Lower(s), Kept);
      StripKept(kept);
      Strip(kept)
  }

  /** Stripping a text of kept characters leaves kept characters. */
  lemma StripKept(x: string)
    requires forall i :: 0 <= i < |x| ==> Kept(x[i])
    ensures forall i :: 0 <= i < |Strip(x)| ==> Kept(Strip(x)[i])
  {
    var r := Strip(x);
    StripSlice(x);
    assert forall k :: 0 <= k < |r| ==> r[k] == x[StripFrom(x) + k];
  }

  /** Cleaning a cleaned text changes nothing. */
  lemma CleanTextIdempotent(text: Option<string>)
    ensures CleanText(Some(CleanText(text))) == CleanText(text)
  {
    var r := CleanText(text);
    assert Lower(r) == r;
    FilterAll(r, Kept);
    StripUnpadded(r);
  }

  lemma {:induction false} LowerLetters(s: string)
    ensures Filter(Lower(s), IsLower) == LettersLowered(s)
    decreases |s|
  {
    if |s| > 0 {
      assert Lower(s)[1..] == Lower(s[1..]);
      LowerLetters(s[1..]);
    }
  }

  /** The letters of the cleaned text are exactly the input's ASCII letters,
      lower-cased, in their original order: cleaning only ever drops
      non-letters and whitespace. */
  lemma CleanTextLetters(s: string)
    ensures Filter(CleanText(Some(s)), IsLower) == LettersLowered(s)
  {
    var kept := Filter(Lower(s), Kept);
    var r := Strip(kept);
    StrippedLetters(kept);
    assert CleanText(Some(s)) == r;
    FilterFilter(Lower(s), IsLower, Kept);
    LowerLetters(s);
  }

  /** Stripping removes no lower-case letter. */
  lemma StrippedLetters(x: string)
    ensures Filter(Strip(x), IsLower) == Filter(x, IsLower)
  {
    var r := Strip(x);
    StripSlice(x);
    var head, tail := x[..StripFrom(x)], x[StripTo(x)..];
    assert x == head + r + tail;
    SpacesHaveNoLetters(head);
    SpacesHaveNoLetters(tail);
    calc {
      Filter(x, IsLower);
      { FilterConcat(head + r, tail, IsLower); }
      Filter(head + r, IsLower) + Filter(tail, IsLower);
      { FilterConcat(head, r, IsLower); }
      Filter(head, IsLower) + Filter(r, IsLower) + Filter(tail, IsLower);
    }
    assert [] + Filter(r, IsLower) + [] == Filter(r, IsLower);
  }

  lemma SpacesHaveNoLetters(x: string)
    requires AllSpaces(x)
    ensures Filter(x, IsLower) == []
  {
    FilterNone(x, IsLower);
  }
}
