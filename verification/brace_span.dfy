/**
 * The repair step of the handler: `re.search(r"\{.*\}", text, re.S)`, the
 * leftmost match of "an opening brace, anything (newlines included), a
 * closing brace", with the `.*` taken as long as possible. It is computed
 * here from the first `{` and the last `}`, and proved equal to that
 * leftmost-longest match.
 */
module BraceSpan {
  import opened Wrappers
  import opened PyText

  const OpenBrace: CodePoint := 123
  const CloseBrace: CodePoint := 125

  /** The first index at or after `from` where `s` holds `c`. */
  function FirstFrom(s: Str, c: CodePoint, from: nat): (r: Option<nat>)
    requires from <= |s|
    ensures r.Some? ==> from <= r.value < |s| && s[r.value] == c
    ensures r.Some? ==> forall k :: from <= k < r.value ==> s[k] != c
    ensures r.None? ==> forall k :: from <= k < |s| ==> s[k] != c
    decreases |s| - from
  {
    if from == |s| then None
    else if s[from] == c then Some(from)
    else FirstFrom(s, c, from + 1)
  }

  /** The last index below `upto` where `s` holds `c`. */
  function LastBefore(s: Str, c: CodePoint, upto: nat): (r: Option<nat>)
    requires upto <= |s|
    ensures r.Some? ==> r.value < upto && s[r.value] == c
    ensures r.Some? ==> forall k :: r.value < k < upto ==> s[k] != c
    ensures r.None? ==> forall k :: 0 <= k < upto ==> s[k] != c
  {
    if upto == 0 then None
    else if s[upto - 1] == c then Some(upto - 1)
    else LastBefore(s, c, upto - 1)
  }

  /** Some `{` stands before some `}` in `text`. */
  predicate HasBracePair(text: Str) {
    exists i, j :: 0 <= i < j < |text| && text[i] == OpenBrace && text[j] == CloseBrace
  }

  /**
   * The text matched by the brace pattern: from the first `{` to the last
   * `}`, both included, when the first comes before the last.
   */
  function ExtractSpan(text: Str): (r: Option<Str>)
    ensures r.Some? <==> HasBracePair(text)
    ensures r.Some? ==> |r.value| >= 2 && r.value[0] == OpenBrace && r.value[|r.value| - 1] == CloseBrace
    ensures r.Some? ==> exists i, j :: 0 <= i <= j <= |text| && r.value == text[i..j]
  {
    match (FirstFrom(text, OpenBrace, 0), LastBefore(text, CloseBrace, |text|))
    case (Some(i), Some(j)) =>
      if i < j then
        assert HasBracePair(text);
        // `i` and `j + 1` are the witnesses of the last ensures.
        assert 0 <= i <= j + 1 <= |text|;
        Some(text[i..j + 1])
      else None
    case _ => None
  }

  // ------------------------------------------------- the regex, as a reference

  /** `text[i..j]` is matched by `\{.*\}` under DOTALL. */
  ghost predicate MatchAt(text: Str, i: int, j: int) {
    0 <= i && i + 2 <= j <= |text| && text[i] == OpenBrace && text[j - 1] == CloseBrace
  }

  /**
   * `text[i..j]` is what `re.search` returns: a match, no match starts
   * earlier, and the greedy `.*` makes it the longest match starting at `i`.
   */
  ghost predicate LeftmostLongest(text: Str, i: int, j: int) {
    && MatchAt(text, i, j)
    && (forall i', j' :: MatchAt(text, i', j') ==> i <= i')
    && (forall j' :: MatchAt(text, i, j') ==> j' <= j)
  }

  /** The span is exactly the text of `re.search`'s match, when there is one. */
  lemma ExtractSpanIsSearch(text: Str)
    ensures ExtractSpan(text).None? <==> forall i, j :: !MatchAt(text, i, j)
    ensures ExtractSpan(text).Some? ==>
      exists i, j :: LeftmostLongest(text, i, j) && ExtractSpan(text).value == text[i..j]
  {
    var first := FirstFrom(text, OpenBrace, 0);
    var last := LastBefore(text, CloseBrace, |text|);
    if ExtractSpan(text).Some? {
      var i, j := first.value, last.value + 1;
      assert MatchAt(text, i, j);
      assert LeftmostLongest(text, i, j);
    }
  }
}
