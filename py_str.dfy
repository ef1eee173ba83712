/**
 * The two Python string operations the driver relies on: `str.strip()` with
 * no argument, and `int()` applied to a string.
 */
module PyStr {
  import opened Options

  /** `str.isspace()` for one character: what `strip()` removes at both ends. */
  predicate IsSpace(c: char)
    ensures IsSpace(c) ==> !('0' <= c <= '9') && c != '+' && c != '-' && c != '_'
  {
    || '\t' <= c <= '\r'
    || '\U{1C}' <= c <= ' '
    || c == '\U{85}' || c == '\U{A0}' || c == '\U{1680}'
    || '\U{2000}' <= c <= '\U{200A}'
    || c == '\U{2028}' || c == '\U{2029}' || c == '\U{202F}' || c == '\U{205F}' || c == '\U{3000}'
  }

  /** Drops the whitespace at the start of `s` (see StripLeftMeaning). */
  function StripLeft(s: string): (r: string)
    ensures |r| <= |s|
  {
    if s != [] && IsSpace(s[0]) then StripLeft(s[1..]) else s
  }

  /** Drops the whitespace at the end of `s` (see StripRightMeaning). */
  function StripRight(s: string): (r: string)
    ensures |r| <= |s|
  {
    if s != [] && IsSpace(s[|s| - 1]) then StripRight(s[..|s| - 1]) else s
  }

  /** StripLeft leaves a suffix of `s`, removes only whitespace, and stops at the first other character. */
  lemma {:induction false} StripLeftMeaning(s: string)
    ensures var r := StripLeft(s);
      && r == s[|s| - |r|..]
      && (forall i :: 0 <= i < |s| - |r| ==> IsSpace(s[i]))
      && (r != [] ==> !IsSpace(r[0]))
  {
    if s != [] && IsSpace(s[0]) {
      StripLeftMeaning(s[1..]);
      var r := StripLeft(s);
      assert s[1..][|s| - 1 - |r|..] == s[|s| - |r|..];
      forall i | 0 < i < |s| - |r| ensures IsSpace(s[i]) {
        assert s[i] == s[1..][i - 1];
      }
    }
  }

  /** StripRight leaves a prefix of `s`, removes only whitespace, and stops at the last other character. */
  lemma {:induction false} StripRightMeaning(s: string)
    ensures var r := StripRight(s);
      && r == s[..|r|]
      && (forall i :: |r| <= i < |s| ==> IsSpace(s[i]))
      && (r != [] ==> !IsSpace(r[|r| - 1]))
  {
    if s != [] && IsSpace(s[|s| - 1]) {
      StripRightMeaning(s[..|s| - 1]);
      var r := StripRight(s);
      assert s[..|s| - 1][..|r|] == s[..|r|];
      forall i | |r| <= i < |s| - 1 ensures IsSpace(s[i]) {
        assert s[i] == s[..|s| - 1][i];
      }
    }
  }

  /** `r` is `s` without the whitespace `s[..i]` before it and `s[j..]` after it. */
  ghost predicate Trims(s: string, r: string, i: nat, j: nat) {
    && i <= j <= |s|
    && r == s[i..j]
    && (forall k :: 0 <= k < i ==> IsSpace(s[k]))
    && (forall k :: j <= k < |s| ==> IsSpace(s[k]))
  }

  lemma StripBoth(s: string, left: string, r: string, i: nat, j: nat)
    requires left == StripLeft(s) && r == StripRight(left)
    requires i == |s| - |left| && j == i + |r|
    ensures Trims(s, r, i, j)
  {
    StripLeftMeaning(s);
    StripRightMeaning(left);
    assert left == s[i..];
    assert r == left[..|r|] == s[i..j];
    SpacesBeyond(s, left, i, j);
  }

  /** Whitespace at the end of the suffix `s[i..]` is whitespace at the end of `s`. */
  lemma SpacesBeyond(s: string, left: string, i: nat, j: nat)
    requires i <= j <= |s| && left == s[i..]
    requires forall k :: j - i <= k < |left| ==> IsSpace(left[k])
    ensures forall k :: j <= k < |s| ==> IsSpace(s[k])
  {
    forall k | j <= k < |s| ensures IsSpace(s[k]) {
      assert s[k] == left[k - i];
    }
  }

  /**
   * `s.strip()`: what is left of `s` once the whitespace at both ends is
   * removed (see StripMeaning).
   */
  function Strip(s: string): (r: string)
    ensures |r| <= |s|
  {
    StripRight(StripLeft(s))
  }

  /**
   * The stripped string is a slice of `s` with only whitespace around it; it
   * neither starts nor ends with whitespace, and it is empty exactly when `s`
   * is all whitespace.
   */
  lemma StripMeaning(s: string)
    ensures exists i, j :: Trims(s, Strip(s), i, j)
    ensures Strip(s) != [] ==> !IsSpace(Strip(s)[0]) && !IsSpace(Strip(s)[|Strip(s)| - 1])
    ensures Strip(s) == [] <==> forall k :: 0 <= k < |s| ==> IsSpace(s[k])
  {
    var left := StripLeft(s);
    var r := StripRight(left);
    var i := |s| - |left|;
    assert Strip(s) == r;
    StripBoth(s, left, r, i, i + |r|);
    StripLeftMeaning(s);
    StripRightMeaning(left);
    if r != [] {
      assert r[0] == left[0] == s[i];
    }
  }

  /** Stripping a stripped string changes nothing. */
  lemma StripIdempotent(s: string)
    ensures Strip(Strip(s)) == Strip(s)
  {
    var r := Strip(s);
    StripMeaning(s);
    if r != [] {
      assert StripLeft(r) == r;
      assert StripRight(r) == r;
    }
  }

  /** A string that neither starts nor ends with whitespace is its own strip, whatever whitespace follows it. */
  lemma StripTrailingSpace(t: string, c: char)
    requires t != [] && !IsSpace(t[0]) && !IsSpace(t[|t| - 1]) && IsSpace(c)
    ensures Strip(t + [c]) == t
  {
    assert StripLeft(t + [c]) == t + [c];
    assert (t + [c])[..|t|] == t;
    assert StripRight(t + [c]) == StripRight(t) == t;
  }

  predicate IsDigit(c: char) {
    '0' <= c <= '9'
  }

  /**
   * The digit part `int()` accepts: decimal digits, with single underscores
   * allowed between two digits.
   */
  predicate WellFormedDigits(s: string) {
    && |s| > 0
    && IsDigit(s[0])
    && IsDigit(s[|s| - 1])
    && (forall i :: 0 <= i < |s| ==> IsDigit(s[i]) || s[i] == '_')
    && (forall i :: 0 <= i < |s| - 1 ==> s[i] == '_' ==> s[i + 1] != '_')
  }

  /** The value of a digit string, underscores skipped. */
  function DigitsValue(s: string): nat {
    if s == [] then 0
    else if IsDigit(s[|s| - 1]) then DigitsValue(s[..|s| - 1]) * 10 + (s[|s| - 1] as int - '0' as int)
    else DigitsValue(s[..|s| - 1])
  }

  /**
   * `int(s)` for a string with no surrounding whitespace: an optional sign,
   * then well-formed digits; None where Python raises ValueError on such
   * text, except that no limit is put on the number of digits.
   */
  function ParseInt(s: string): (r: Option<int>)
    ensures r.Some? ==> s != [] && !IsSpace(s[0]) && !IsSpace(s[|s| - 1])
    ensures r.Some? && r.value < 0 ==> s[0] == '-'
  {
    if |s| > 0 && (s[0] == '+' || s[0] == '-') then
      if WellFormedDigits(s[1..]) then
        var magnitude: int := DigitsValue(s[1..]);
        Some(if s[0] == '-' then -magnitude else magnitude)
      else None
    else if WellFormedDigits(s) then Some(DigitsValue(s))
    else None
  }

  /** `int()` reads a minus sign followed by well-formed digits as the negated value of the digits. */
  lemma ParseNegative(digits: string)
    requires WellFormedDigits(digits)
    ensures ParseInt("-" + digits) == Some(0 - DigitsValue(digits) as int)
  {
    assert ("-" + digits)[1..] == digits;
  }
}
