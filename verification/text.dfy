/** The string operations the server applies to user input before checking it:
    Python's `str.strip()`, `str.lower()` and the regular-expression class `\s`.
    A `char` is a Unicode scalar value, as a Python `str` element is a code
    point. */
module Text {

  /** `c.isspace()`, which is also what `\s` matches in a `str` pattern and what
      `strip()` removes: the ASCII controls 9 to 13 and 28 to 31, the space, and
      the Unicode space separators and line/paragraph separators. */
  predicate IsSpace(c: char) {
    || ('\U{9}' <= c <= '\U{D}')
    || ('\U{1C}' <= c <= '\U{20}')
    || c == '\U{85}' || c == '\U{A0}' || c == '\U{1680}'
    || ('\U{2000}' <= c <= '\U{200A}')
    || c == '\U{2028}' || c == '\U{2029}' || c == '\U{202F}' || c == '\U{205F}' || c == '\U{3000}'
  }

  predicate AllSpace(s: string) {
    forall i | 0 <= i < |s| :: IsSpace(s[i])
  }

  predicate IsUpperAscii(c: char) {
    'A' <= c <= 'Z'
  }

  /** `str.lower()` on one character, for the ASCII letters. */
  function LowerChar(c: char): (d: char)
    ensures IsUpperAscii(c) ==> d as int == c as int + 32
    ensures !IsUpperAscii(c) ==> d == c
    ensures !IsUpperAscii(d)
    ensures IsSpace(d) <==> IsSpace(c)
  {
    if IsUpperAscii(c) then (c as int + 32) as char else c
  }

  function Lower(s: string): (r: string)
    ensures |r| == |s|
    ensures forall i | 0 <= i < |s| :: r[i] == LowerChar(s[i])
  {
    if |s| == 0 then [] else [LowerChar(s[0])] + Lower(s[1..])
  }

  /** Lowering twice is lowering once. */
  lemma LowerIdempotent(s: string)
    ensures Lower(Lower(s)) == Lower(s)
  {
  }

  /** `s[a..b]` is `s` with the whitespace at both ends cut off: everything
      outside it is whitespace, and it is empty or starts and ends with a
      character that is not. */
  predicate StripsTo(s: string, a: nat, b: nat) {
    && a <= b <= |s|
    && (forall i | 0 <= i < a :: IsSpace(s[i]))
    && (forall i | b <= i < |s| :: IsSpace(s[i]))
    && (a < b ==> !IsSpace(s[a]) && !IsSpace(s[b - 1]))
  }

  /** The number of leading whitespace characters. */
  function LeadingSpaces(s: string): (n: nat)
    ensures n <= |s|
    ensures forall i | 0 <= i < n :: IsSpace(s[i])
    ensures n < |s| ==> !IsSpace(s[n])
  {
    if |s| == 0 || !IsSpace(s[0]) then 0 else 1 + LeadingSpaces(s[1..])
  }

  /** The end of `s` once its trailing whitespace is cut off. */
  function TrailingEnd(s: string): (b: nat)
    ensures b <= |s|
    ensures forall i | b <= i < |s| :: IsSpace(s[i])
    ensures b > 0 ==> !IsSpace(s[b - 1])
  {
    if |s| == 0 || !IsSpace(s[|s| - 1]) then |s| else TrailingEnd(s[..|s| - 1])
  }

  /** Where `str.strip()` cuts `s`. */
  function StripBounds(s: string): (r: (nat, nat))
    ensures StripsTo(s, r.0, r.1)
  {
    var a := LeadingSpaces(s);
    var b := TrailingEnd(s);
    if a == |s| then (a, a)
    else
      assert a < b by {
        assert !IsSpace(s[a]);
      }
      (a, b)
  }

  /** Any two ways to cut the whitespace off `s` give the same text. */
  lemma StripsToUnique(s: string, a: nat, b: nat, a': nat, b': nat)
    requires StripsTo(s, a, b) && StripsTo(s, a', b')
    ensures s[a..b] == s[a'..b']
  {
    assert a < b <==> a' < b' by {
      if a < b {
        assert !IsSpace(s[a]);
      }
      if a' < b' {
        assert !IsSpace(s[a']);
      }
    }
    if a < b {
      assert !IsSpace(s[a]) && !IsSpace(s[a']) && !IsSpace(s[b - 1]) && !IsSpace(s[b' - 1]);
      assert a == a' && b == b';
    }
  }

  /** `str.strip()`. */
  function Strip(s: string): (r: string)
    ensures exists a: nat, b: nat :: StripsTo(s, a, b) && r == s[a..b]
    ensures |r| <= |s|
    ensures |r| > 0 ==> !IsSpace(r[0]) && !IsSpace(r[|r| - 1])
    ensures (forall k | 0 <= k < |s| :: IsSpace(s[k])) <==> r == []
    ensures (|s| == 0 || (!IsSpace(s[0]) && !IsSpace(s[|s| - 1]))) ==> r == s
  {
    var bounds := StripBounds(s);
    var r := s[bounds.0..bounds.1];
    assert (forall k | 0 <= k < |s| :: IsSpace(s[k])) ==> r == [] by {
      if bounds.0 < bounds.1 {
        assert !IsSpace(s[bounds.0]);
      }
    }
    assert |s| > 0 && !IsSpace(s[0]) && !IsSpace(s[|s| - 1]) ==> bounds == (0, |s|) by {
      if |s| > 0 && !IsSpace(s[0]) && !IsSpace(s[|s| - 1]) {
        assert bounds.0 < bounds.1;
      }
    }
    r
  }

  /** The stripped text is determined by any cut of the whitespace. */
  lemma StripIs(s: string, a: nat, b: nat)
    requires StripsTo(s, a, b)
    ensures Strip(s) == s[a..b]
  {
    var bounds := StripBounds(s);
    StripsToUnique(s, a, b, bounds.0, bounds.1);
  }

  /** Stripping twice is stripping once. */
  lemma StripIdempotent(s: string)
    ensures Strip(Strip(s)) == Strip(s)
  {
    var bounds := StripBounds(s);
    var r := s[bounds.0..bounds.1];
    StripIs(r, 0, |r|);
  }

  lemma LowerSlice(s: string, a: nat, b: nat)
    requires a <= b <= |s|
    ensures Lower(s[a..b]) == Lower(s)[a..b]
  {
    var x := Lower(s[a..b]);
    var y := Lower(s)[a..b];
    forall k | 0 <= k < b - a
      ensures x[k] == y[k]
    {
      assert s[a..b][k] == s[a + k];
    }
  }

  lemma LowerKeepsSpaces(s: string, a: nat, b: nat)
    requires StripsTo(s, a, b)
    ensures StripsTo(Lower(s), a, b)
  {
    var ls := Lower(s);
    forall i | 0 <= i < |s|
      ensures IsSpace(ls[i]) <==> IsSpace(s[i])
    {
      assert ls[i] == LowerChar(s[i]);
    }
  }

  /** Lowering never touches whitespace, so it commutes with stripping. */
  lemma LowerStrip(s: string)
    ensures Lower(Strip(s)) == Strip(Lower(s))
  {
    var bounds := StripBounds(s);
    LowerKeepsSpaces(s, bounds.0, bounds.1);
    StripIs(Lower(s), bounds.0, bounds.1);
    LowerSlice(s, bounds.0, bounds.1);
  }
}
