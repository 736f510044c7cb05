/**
 * `ascii_safe_preview`: the text the handler writes to its log for an essay
 * or a model reply. The text is cut to `limit` code points, "..." is
 * appended when something was cut, and the result is encoded to ASCII with
 * Python's `backslashreplace` error handler, which writes every non-ASCII
 * code point as `\xhh`, `\uhhhh` or `\Uhhhhhhhh` in lower-case hex.
 */
module Preview {
  import opened Wrappers
  import opened PyText

  /** The default `limit` of `ascii_safe_preview`, the one every call uses. */
  const DefaultLimit: int := 120

  const Backslash: CodePoint := 92
  const Ellipsis: Str := [46, 46, 46]

  function Min(a: int, b: int): int { if a <= b then a else b }
  function Max(a: int, b: int): int { if a <= b then b else a }

  predicate NoBackslash(s: Str) {
    forall k :: 0 <= k < |s| ==> s[k] != Backslash
  }

  // ---------------------------------------------------------------- hex digits

  function Pow16(w: nat): nat {
    if w == 0 then 1 else 16 * Pow16(w - 1)
  }

  /** The value of one hex digit, either case; None for any other code point. */
  function HexValue(c: CodePoint): (v: Option<nat>)
    ensures v.Some? ==> v.value < 16
  {
    if 48 <= c <= 57 then Some(c - 48)
    else if 97 <= c <= 102 then Some(c - 87)
    else if 65 <= c <= 70 then Some(c - 55)
    else None
  }

  /** `0`-`9` or `a`-`f`: the digits `%x` writes. */
  predicate IsLowerHexDigit(c: CodePoint) {
    48 <= c <= 57 || 97 <= c <= 102
  }

  /** The lower-case hex digit of `d`, as `%x` writes it. */
  function HexDigit(d: nat): (c: CodePoint)
    requires d < 16
    ensures IsAscii(c) && c != Backslash && IsLowerHexDigit(c)
    ensures HexValue(c) == Some(d)
  {
    if d < 10 then 48 + d else 87 + d
  }

  /** A run of hex digits read most significant first. */
  function ParseHex(t: Str): Option<nat>
    decreases |t|
  {
    if t == [] then Some(0)
    else
      match (ParseHex(t[..|t| - 1]), HexValue(t[|t| - 1]))
      case (Some(p), Some(d)) => Some(p * 16 + d)
      case _ => None
  }

  /** `format(n, "0{w}x")`: `n` in `w` lower-case hex digits, zero-padded. */
  function HexDigits(n: nat, w: nat): (r: Str)
    requires n < Pow16(w)
    ensures |r| == w && AllAscii(r) && NoBackslash(r)
    ensures forall k :: 0 <= k < |r| ==> IsLowerHexDigit(r[k])
    ensures ParseHex(r) == Some(n)
  {
    if w == 0 then []
    else
      var front := HexDigits(n / 16, w - 1);
      var r := front + [HexDigit(n % 16)];
      assert r[..|r| - 1] == front;
      r
  }

  // ------------------------------------------------------ backslashreplace

  /**
   * What `backslashreplace` writes for one code point: the code point itself
   * when it is ASCII, else `\x` and two digits up to 0xFF, `\u` and four up
   * to 0xFFFF, `\U` and eight above.
   */
  function EscapeChar(c: CodePoint): (r: Str)
    ensures AllAscii(r)
    ensures IsAscii(c) ==> r == [c]
    ensures !IsAscii(c) ==> 4 <= |r| <= 10 && r[0] == Backslash
    ensures 0x80 <= c <= 0xFF ==> |r| == 4 && r[1] == 120
    ensures 0x100 <= c <= 0xFFFF ==> |r| == 6 && r[1] == 117
    ensures c > 0xFFFF ==> |r| == 10 && r[1] == 85
    ensures !IsAscii(c) ==> ParseHex(r[2..]) == Some(c)
    ensures !IsAscii(c) ==> forall k :: 2 <= k < |r| ==> IsLowerHexDigit(r[k])
  {
    if c < 128 then [c]
    else
      var (tag, w) := if c <= 0xFF then (120, 2) else if c <= 0xFFFF then (117, 4) else (85, 8);
      var digits := HexDigits(c, w);
      var r := [Backslash, tag] + digits;
      assert r[2..] == digits;
      r
  }

  /** `s.encode("ascii", "backslashreplace").decode("ascii")`. */
  function Escape(s: Str): (r: Str)
    ensures AllAscii(r)
    ensures |s| <= |r| <= 10 * |s|
    ensures AllAscii(s) ==> r == s
    decreases |s|
  {
    if s == [] then [] else EscapeChar(s[0]) + Escape(s[1..])
  }

  /** Escaping works code point by code point, so it distributes over `+`. */
  lemma {:induction false} EscapeConcat(a: Str, b: Str)
    ensures Escape(a + b) == Escape(a) + Escape(b)
    decreases |a|
  {
    if a == [] {
      assert a + b == b;
    } else {
      assert (a + b)[0] == a[0];
      assert (a + b)[1..] == a[1..] + b;
      EscapeConcat(a[1..], b);
    }
  }

  /** The width of the hex field after `\x`, `\u` or `\U`; 0 after anything else. */
  function EscapeWidth(tag: CodePoint): nat {
    if tag == 120 then 2 else if tag == 117 then 4 else if tag == 85 then 8 else 0
  }

  function Cons(c: CodePoint, rest: Option<Str>): Option<Str> {
    match rest
    case Some(u) => Some([c] + u)
    case None => None
  }

  /**
   * The decoder that undoes `backslashreplace`: `\xhh`, `\uhhhh` and
   * `\Uhhhhhhhh` become the code point they name, any other code point other
   * than a backslash stands for itself, and a malformed escape is rejected.
   */
  function Unescape(t: Str): Option<Str>
    decreases |t|
  {
    if t == [] then Some([])
    else if t[0] != Backslash then Cons(t[0], Unescape(t[1..]))
    else
      var w := if |t| < 2 then 0 else EscapeWidth(t[1]);
      if w == 0 || |t| < 2 + w then None
      else
        match ParseHex(t[2..2 + w])
        case Some(v) => if v < 0x11_0000 then Cons(v, Unescape(t[2 + w..])) else None
        case None => None
  }

  /** Decoding one hex escape of width `w` that names `c`. */
  lemma UnescapeHexEscape(c: CodePoint, tag: CodePoint, rest: Str)
    requires EscapeWidth(tag) > 0 && c < Pow16(EscapeWidth(tag))
    ensures Unescape([Backslash, tag] + HexDigits(c, EscapeWidth(tag)) + rest) == Cons(c, Unescape(rest))
  {
    var w := EscapeWidth(tag);
    var digits := HexDigits(c, w);
    var t := [Backslash, tag] + digits + rest;
    assert t[0] == Backslash && t[1] == tag;
    assert t[2..2 + w] == digits;
    assert t[2 + w..] == rest;
  }

  lemma UnescapeEscapeChar(c: CodePoint, rest: Str)
    requires c != Backslash
    ensures Unescape(EscapeChar(c) + rest) == Cons(c, Unescape(rest))
  {
    if c < 128 {
      var t := EscapeChar(c) + rest;
      assert t[0] == c && t[1..] == rest;
    } else if c <= 0xFF {
      assert Pow16(2) == 0x100;
      UnescapeHexEscape(c, 120, rest);
    } else if c <= 0xFFFF {
      assert Pow16(4) == 0x1_0000 by {
        assert Pow16(2) == 0x100;
      }
      UnescapeHexEscape(c, 117, rest);
    } else {
      assert Pow16(8) == 0x1_0000_0000 by {
        assert Pow16(2) == 0x100;
        assert Pow16(4) == 0x1_0000;
        assert Pow16(6) == 0x100_0000;
      }
      UnescapeHexEscape(c, 85, rest);
    }
  }

  /**
   * On text without a backslash the escaping loses nothing: decoding the
   * escaped text gives the text back.
   */
  lemma {:induction false} UnescapeEscape(s: Str)
    requires NoBackslash(s)
    ensures Unescape(Escape(s)) == Some(s)
    decreases |s|
  {
    if s != [] {
      var rest := Escape(s[1..]);
      assert Escape(s) == EscapeChar(s[0]) + rest;
      UnescapeEscapeChar(s[0], rest);
      UnescapeEscape(s[1..]);
      assert Unescape(rest) == Some(s[1..]);
      assert [s[0]] + s[1..] == s;
    }
  }

  /**
   * With a backslash in the text the escaping is lossy: the four ASCII
   * characters `\xe9` and the single code point U+00E9 are logged alike.
   */
  lemma EscapeCollides()
    ensures Escape([Backslash, 120, 101, 57]) == Escape([0xE9])
  {
    assert HexDigits(0xE9, 2) == [101, 57] by {
      assert HexDigits(0xE9 / 16, 1) == [HexDigit(14)];
    }
    assert Escape([0xE9]) == EscapeChar(0xE9) + Escape([]);
  }

  // ------------------------------------------------------------- the preview

  /** Python's `s[:stop]`, where a negative `stop` counts from the end. */
  function SliceTo(s: Str, stop: int): (r: Str)
    ensures |r| <= |s| && r == s[..|r|]
    ensures stop >= 0 ==> |r| == Min(stop, |s|)
    ensures stop < 0 ==> |r| == Max(0, |s| + stop)
  {
    if stop >= 0 then s[..Min(stop, |s|)] else s[..Max(0, |s| + stop)]
  }

  /** `s[:limit] + ("..." if len(s) > limit else "")`. */
  function Truncate(s: Str, limit: int): (r: Str)
    ensures limit >= 0 && |s| <= limit ==> r == s
    ensures limit >= 0 && |s| > limit ==> r == s[..limit] + Ellipsis
    ensures limit < 0 ==> r == s[..Max(0, |s| + limit)] + Ellipsis
  {
    SliceTo(s, limit) + (if |s| > limit then Ellipsis else [])
  }

  /** `ascii_safe_preview(s, limit)`; `None` stands for Python's `None`. */
  function AsciiSafePreview(s: Option<Str>, limit: int): (r: Str)
    ensures AllAscii(r)
    ensures limit >= 0 ==>
      var n := Min(|s.GetOr([])|, limit);
      var mark := if |s.GetOr([])| > limit then 3 else 0;
      n + mark <= |r| <= 10 * n + mark
    ensures limit >= 0 && AllAscii(s.GetOr([])) ==>
      r == Truncate(s.GetOr([]), limit)
      && |r| == Min(|s.GetOr([])|, limit) + (if |s.GetOr([])| > limit then 3 else 0)
  {
    var text := s.GetOr([]);
    var cut := SliceTo(text, limit);
    EscapeConcat(cut, if |text| > limit then Ellipsis else []);
    Escape(Truncate(text, limit))
  }

  /** An ASCII text of at most 120 code points is logged exactly as it is. */
  lemma ShortAsciiUnchanged(s: Str)
    requires AllAscii(s) && |s| <= DefaultLimit
    ensures AsciiSafePreview(Some(s), DefaultLimit) == s
  {
  }

  /** `None` and the empty string both preview as the empty string. */
  lemma NothingPreviewsEmpty(limit: int)
    requires limit >= 0
    ensures AsciiSafePreview(None, limit) == AsciiSafePreview(Some([]), limit) == []
  {
  }

  /**
   * A negative limit counts from the end, and since every length exceeds it,
   * "..." is always appended, even to the empty string.
   */
  lemma NegativeLimitAlwaysMarks(s: Option<Str>, limit: int)
    requires limit < 0
    ensures AsciiSafePreview(s, limit) == Escape(s.GetOr([])[..Max(0, |s.GetOr([])| + limit)]) + Ellipsis
  {
    var text := s.GetOr([]);
    EscapeConcat(text[..Max(0, |text| + limit)], Ellipsis);
  }

  /**
   * For text without a backslash the preview can be decoded back to exactly
   * the truncated text: the escaping hides nothing of what was kept.
   */
  lemma {:induction false} PreviewDecodes(s: Str, limit: int)
    requires NoBackslash(s)
    ensures Unescape(AsciiSafePreview(Some(s), limit)) == Some(Truncate(s, limit))
  {
    var t := Truncate(s, limit);
    assert NoBackslash(t) by {
      var cut := SliceTo(s, limit);
      assert t == cut + (if |s| > limit then Ellipsis else []);
      forall k | 0 <= k < |t| ensures t[k] != Backslash {
        if k < |cut| {
          assert t[k] == s[k];
        }
      }
    }
    UnescapeEscape(t);
  }
}
