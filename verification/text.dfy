/** The two character-level string operations `get_price` applies to element
    texts: Python's argument-less `str.strip()` and the filter that keeps only
    the digit and decimal-point characters of a price text. */
module Text {

  /** The code points Python's `str.isspace` accepts, which are exactly the
      ones `str.strip()` without arguments removes from both ends. */
  predicate IsWhitespace(c: char) {
    || ('\t' <= c <= '\r')
    || ('\U{1C}' <= c <= '\U{1F}')
    || c == ' '
    || c == '\U{85}'
    || c == '\U{A0}'
    || c == '\U{1680}'
    || ('\U{2000}' <= c <= '\U{200A}')
    || c == '\U{2028}'
    || c == '\U{2029}'
    || c == '\U{202F}'
    || c == '\U{205F}'
    || c == '\U{3000}'
  }

  predicate AllWhitespace(s: string) {
    forall i :: 0 <= i < |s| ==> IsWhitespace(s[i])
  }

  /** A decimal digit, as `str.isdigit` judges the ASCII range. */
  predicate IsDigit(c: char) {
    '0' <= c <= '9'
  }

  /** The characters the price filter keeps: digits and the decimal point. */
  predicate IsPriceChar(c: char) {
    IsDigit(c) || c == '.'
  }

  predicate AllPriceChars(s: string) {
    forall i :: 0 <= i < |s| ==> IsPriceChar(s[i])
  }

  /** The length of the run of whitespace that starts `s`. */
  function LeadingWhitespace(s: string): (k: nat)
    ensures k <= |s| && AllWhitespace(s[..k])
    ensures k == |s| || !IsWhitespace(s[k])
  {
    if s != [] && IsWhitespace(s[0]) then
      var k := 1 + LeadingWhitespace(s[1..]);
      assert forall i :: 1 <= i < k ==> s[..k][i] == s[1..][..k - 1][i - 1];
      k
    else
      0
  }

  /** The index where the run of whitespace that ends `s` begins. */
  function TrailingWhitespace(s: string): (k: nat)
    ensures k <= |s| && AllWhitespace(s[k..])
    ensures k == 0 || !IsWhitespace(s[k - 1])
    decreases |s|
  {
    if s != [] && IsWhitespace(s[|s| - 1]) then
      var front := s[..|s| - 1];
      var k := TrailingWhitespace(front);
      assert forall i :: 0 <= i < |s| - 1 - k ==> s[k..][i] == front[k..][i];
      k
    else
      |s|
  }

  /** Python's `s.strip()`: the text between the leading and the trailing
      whitespace of `s`. */
  function Strip(s: string): (r: string)
    ensures exists i, j :: 0 <= i <= j <= |s| && r == s[i..j] && AllWhitespace(s[..i]) && AllWhitespace(s[j..])
    ensures r == [] || (!IsWhitespace(r[0]) && !IsWhitespace(r[|r| - 1]))
  {
    var i := LeadingWhitespace(s);
    var t := s[i..];
    var j := TrailingWhitespace(t);
    assert s[i + j..] == t[j..];
    assert 0 <= i <= i + j <= |s| && t[..j] == s[i..i + j] && AllWhitespace(s[..i]) && AllWhitespace(s[i + j..]);
    t[..j]
  }

  /** The characters of `s` that are ASCII digits or '.', in their
      original order (`Setup.py:80`). */
  function KeepPriceChars(s: string): (r: string)
    ensures AllPriceChars(r)
    ensures |r| <= |s|
  {
    if s == [] then []
    else (if IsPriceChar(s[0]) then [s[0]] else []) + KeepPriceChars(s[1..])
  }

  /** The filter keeps every digit and point as often as it occurs, and
      nothing else. */
  lemma {:induction false} KeepPriceCharsCounts(s: string)
    ensures forall c :: multiset(KeepPriceChars(s))[c] == if IsPriceChar(c) then multiset(s)[c] else 0
    decreases |s|
  {
    if s != [] {
      assert s == [s[0]] + s[1..];
      KeepPriceCharsCounts(s[1..]);
    }
  }

  /** Whitespace in front of a text that starts with something else is
      exactly what strip removes from the left. */
  lemma LeadingWhitespaceOf(a: string, r: string)
    requires AllWhitespace(a)
    requires r != [] && !IsWhitespace(r[0])
    ensures LeadingWhitespace(a + r) == |a|
  {
    var s := a + r;
    var k := LeadingWhitespace(s);
    assert forall i :: 0 <= i < |a| ==> s[i] == a[i];
    assert s[|a|] == r[0];
    assert forall i :: 0 <= i < k ==> s[..k][i] == s[i];
  }

  /** Whitespace after a text that ends with something else is exactly
      what strip removes from the right. */
  lemma TrailingWhitespaceOf(r: string, b: string)
    requires AllWhitespace(b)
    requires r != [] && !IsWhitespace(r[|r| - 1])
    ensures TrailingWhitespace(r + b) == |r|
  {
    var s := r + b;
    var k := TrailingWhitespace(s);
    assert forall i :: 0 <= i < |b| ==> s[|r| + i] == b[i];
    assert s[|r| - 1] == r[|r| - 1];
    assert forall i :: k <= i < |s| ==> s[k..][i - k] == s[i];
  }

  /** Strip is characterised by what it removes: whatever whitespace
      surrounds a text whose ends are not whitespace, Strip returns that text. */
  lemma StripUnique(a: string, m: string, b: string)
    requires AllWhitespace(a) && AllWhitespace(b)
    requires m == [] || (!IsWhitespace(m[0]) && !IsWhitespace(m[|m| - 1]))
    ensures Strip(a + m + b) == m
  {
    var s := a + m + b;
    if m != [] {
      assert s == a + (m + b);
      LeadingWhitespaceOf(a, m + b);
      assert s[|a|..] == m + b;
      TrailingWhitespaceOf(m, b);
      assert (m + b)[..|m|] == m;
    } else {
      assert forall k :: 0 <= k < |a| ==> s[k] == a[k];
      assert forall k :: 0 <= k < |b| ==> s[|a| + k] == b[k];
    }
  }

  /** Stripping twice is the same as stripping once. */
  lemma StripIdempotent(s: string)
    ensures Strip(Strip(s)) == Strip(s)
  {
    var r := Strip(s);
    assert [] + r + [] == r;
    StripUnique([], r, []);
  }

  /** The price filter works character by character: filtering a
      concatenation concatenates the filtered parts. */
  lemma {:induction false} KeepPriceCharsConcat(a: string, b: string)
    ensures KeepPriceChars(a + b) == KeepPriceChars(a) + KeepPriceChars(b)
    decreases |a|
  {
    if a == [] {
      assert a + b == b;
    } else {
      var head := if IsPriceChar(a[0]) then [a[0]] else [];
      var ka, kb := KeepPriceChars(a[1..]), KeepPriceChars(b);
      assert (a + b)[0] == a[0];
      assert (a + b)[1..] == a[1..] + b;
      assert KeepPriceChars(a + b) == head + KeepPriceChars(a[1..] + b);
      KeepPriceCharsConcat(a[1..], b);
      assert head + (ka + kb) == (head + ka) + kb;
    }
  }

  /** Whitespace contributes nothing to a price. */
  lemma {:induction false} KeepPriceCharsOfWhitespace(s: string)
    requires AllWhitespace(s)
    ensures KeepPriceChars(s) == []
    decreases |s|
  {
    if s != [] {
      assert !IsPriceChar(s[0]);
      KeepPriceCharsOfWhitespace(s[1..]);
    }
  }

  /** The filter yields the empty string exactly when the text holds no
      digit and no decimal point. */
  lemma {:induction false} KeepPriceCharsEmpty(s: string)
    ensures KeepPriceChars(s) == [] <==> forall i :: 0 <= i < |s| ==> !IsPriceChar(s[i])
    decreases |s|
  {
    if s != [] {
      KeepPriceCharsEmpty(s[1..]);
      assert forall i :: 1 <= i < |s| ==> s[i] == s[1..][i - 1];
    }
  }

  /** Filtering an element's stripped text gives the same price string as
      filtering its raw text, so the strip before the filter never matters. */
  lemma KeepPriceCharsIgnoresStrip(s: string)
    ensures KeepPriceChars(Strip(s)) == KeepPriceChars(s)
  {
    var i := LeadingWhitespace(s);
    var j := TrailingWhitespace(s[i..]);
    var pre, mid, post := s[..i], s[i..][..j], s[i..][j..];
    assert Strip(s) == mid;
    assert s == pre + mid + post;
    assert KeepPriceChars(pre) == [] && KeepPriceChars(post) == [] by {
      KeepPriceCharsOfWhitespace(pre);
      KeepPriceCharsOfWhitespace(post);
    }
    KeepPriceCharsConcat(pre + mid, post);
    KeepPriceCharsConcat(pre, mid);
  }

  /** The filter leaves a string unchanged exactly when it already consists
      of digits and decimal points only. */
  lemma {:induction false} KeepPriceCharsFixed(s: string)
    ensures KeepPriceChars(s) == s <==> AllPriceChars(s)
    decreases |s|
  {
    if s != [] {
      KeepPriceCharsFixed(s[1..]);
      if AllPriceChars(s) {
        assert AllPriceChars(s[1..]) by {
          forall i | 0 <= i < |s| - 1 ensures IsPriceChar(s[1..][i]) {
            assert s[1..][i] == s[i + 1];
          }
        }
      }
    }
  }
}
