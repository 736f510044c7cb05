/**
 * Python text as the handler sees it: a `str` is a sequence of code points
 * (0 to 0x10FFFF, lone surrogates included), and `str.strip()` with no
 * argument removes the characters for which `str.isspace()` holds.
 */
module PyText {

  type CodePoint = c: int | 0 <= c < 0x11_0000
  type Str = seq<CodePoint>

  /** A Dafny string literal read as Python code points. */
  function Lit(s: string): (r: Str)
    ensures |r| == |s|
    ensures forall k :: 0 <= k < |s| ==> r[k] == s[k] as int
  {
    seq(|s|, k requires 0 <= k < |s| => s[k] as int)
  }

  predicate IsAscii(c: CodePoint) { c < 128 }

  predicate AllAscii(s: Str) {
    forall k :: 0 <= k < |s| ==> IsAscii(s[k])
  }

  /**
   * The code points for which Python's `str.isspace()` is true: the
   * characters of bidirectional class WS, B or S and of category Zs.
   */
  predicate IsWhitespace(c: CodePoint)
    ensures IsAscii(c) ==> (IsWhitespace(c) <==> c == 32 || 9 <= c <= 13 || 28 <= c <= 31)
    ensures IsWhitespace(c) ==> c <= 0x3000
    ensures IsWhitespace(c) ==> c != 123 && c != 125
  {
    || 0x09 <= c <= 0x0D
    || 0x1C <= c <= 0x20
    || c == 0x85 || c == 0xA0 || c == 0x1680
    || 0x2000 <= c <= 0x200A
    || c == 0x2028 || c == 0x2029 || c == 0x202F || c == 0x205F
    || c == 0x3000
  }

  predicate AllWhitespace(s: Str) {
    forall k :: 0 <= k < |s| ==> IsWhitespace(s[k])
  }

  /**
   * The index of the first code point at or after `from` that is not
   * whitespace; `|s|` when there is none. `s.lstrip()` is `s[LeadEnd(s, 0)..]`.
   */
  function LeadEnd(s: Str, from: nat): (i: nat)
    requires from <= |s|
    ensures from <= i <= |s|
    ensures forall k :: from <= k < i ==> IsWhitespace(s[k])
    ensures i < |s| ==> !IsWhitespace(s[i])
    decreases |s| - from
  {
    if from < |s| && IsWhitespace(s[from]) then LeadEnd(s, from + 1) else from
  }

  /**
   * One past the last code point below `upto`, and not below `floor`, that
   * is not whitespace; `floor` when there is none. `s.rstrip()` is
   * `s[..TrailStart(s, 0, |s|)]`.
   */
  function TrailStart(s: Str, floor: nat, upto: nat): (j: nat)
    requires floor <= upto <= |s|
    ensures floor <= j <= upto
    ensures forall k :: j <= k < upto ==> IsWhitespace(s[k])
    ensures j > floor ==> !IsWhitespace(s[j - 1])
    decreases upto
  {
    if upto > floor && IsWhitespace(s[upto - 1]) then TrailStart(s, floor, upto - 1) else upto
  }

  /**
   * `r` is `s` with a run of whitespace removed at each end: a contiguous
   * piece `s[i..j]` with only whitespace before `i` and after `j`.
   */
  ghost predicate TrimOf(s: Str, r: Str) {
    exists i, j :: 0 <= i <= j <= |s| && r == s[i..j]
      && (forall k :: 0 <= k < i ==> IsWhitespace(s[k]))
      && (forall k :: j <= k < |s| ==> IsWhitespace(s[k]))
  }

  /** `s.strip()`: the text between the leading and the trailing whitespace. */
  function Strip(s: Str): (r: Str)
    ensures TrimOf(s, r)
    ensures r != [] ==> !IsWhitespace(r[0]) && !IsWhitespace(r[|r| - 1])
    ensures r == [] <==> AllWhitespace(s)
  {
    var i := LeadEnd(s, 0);
    var j := TrailStart(s, i, |s|);
    assert TrimOf(s, s[i..j]);
    s[i..j]
  }

  /**
   * Stripping is idempotent: what `strip()` returns has no whitespace left
   * at either end.
   */
  lemma StripIdempotent(s: Str)
    ensures Strip(Strip(s)) == Strip(s)
  {
    var t := Strip(s);
    assert LeadEnd(t, 0) == 0;
    assert TrailStart(t, 0, |t|) == |t|;
    assert t[0..|t|] == t;
  }
}
