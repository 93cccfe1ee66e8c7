/** String helpers with the semantics of Go's `strings` and `strconv` calls
    that the service relies on. Strings are sequences of Unicode scalar
    values; Go's strings are UTF-8 bytes, and every property used here
    (whitespace, digits, code-point order) is the same in both views. */
module Text {
  import opened Wrappers

  /** Go's `unicode.IsSpace`: the six ASCII spaces, NEL and NBSP, and the
      remaining code points of the Unicode White_Space property. This is the
      set `strings.TrimSpace` removes. */
  predicate IsSpace(c: char)
  {
    || c == '\t' || c == '\n' || c == '\U{0B}' || c == '\U{0C}' || c == '\r' || c == ' '
    || c == '\U{85}' || c == '\U{A0}' || c == '\U{1680}'
    || ('\U{2000}' <= c <= '\U{200A}')
    || c == '\U{2028}' || c == '\U{2029}' || c == '\U{202F}' || c == '\U{205F}' || c == '\U{3000}'
  }

  predicate IsDigit(c: char)
  {
    '0' <= c <= '9'
  }

  predicate AllDigits(s: string)
  {
    forall k :: 0 <= k < |s| ==> IsDigit(s[k])
  }

  predicate IsBlank(s: string)
  {
    forall k :: 0 <= k < |s| ==> IsSpace(s[k])
  }

  /** No leading and no trailing white space. */
  predicate IsTrimmed(s: string)
  {
    |s| == 0 || (!IsSpace(s[0]) && !IsSpace(s[|s| - 1]))
  }

  // ---------------------------------------------------------------------
  // Lower-casing

  /** Lower-cases ASCII letters and leaves every other character alone. */
  function LowerChar(c: char): (d: char)
    ensures !('A' <= d <= 'Z')
    ensures IsSpace(d) == IsSpace(c) && IsDigit(d) == IsDigit(c)
  {
    if 'A' <= c <= 'Z' then (c as int + 32) as char else c
  }

  /** `strings.ToLower`, restricted to the ASCII case mapping. */
  function ToLower(s: string): (r: string)
    ensures |r| == |s|
    ensures forall i :: 0 <= i < |s| ==> r[i] == LowerChar(s[i])
  {
    seq(|s|, i requires 0 <= i < |s| => LowerChar(s[i]))
  }

  lemma ToLowerIdempotent(s: string)
    ensures ToLower(ToLower(s)) == ToLower(s)
  {
  }

  /** Text without ASCII capitals (every Thai string, for one) is its own
      lower-case form. */
  lemma ToLowerNoCapitals(s: string)
    requires forall k :: 0 <= k < |s| ==> !('A' <= s[k] <= 'Z')
    ensures ToLower(s) == s
  {
  }

  lemma ToLowerSlice(s: string, i: nat, j: nat)
    requires i <= j <= |s|
    ensures ToLower(s[i..j]) == ToLower(s)[i..j]
  {
  }

  // ---------------------------------------------------------------------
  // Trimming

  /** Number of leading white-space characters. */
  function TrimStart(s: string): (i: nat)
    ensures i <= |s|
    ensures forall k :: 0 <= k < i ==> IsSpace(s[k])
    ensures i < |s| ==> !IsSpace(s[i])
  {
    if |s| == 0 || !IsSpace(s[0]) then 0 else 1 + TrimStart(s[1..])
  }

  /** Length of `s` without its trailing white space. */
  function TrimEnd(s: string): (j: nat)
    ensures j <= |s|
    ensures forall k :: j <= k < |s| ==> IsSpace(s[k])
    ensures j > 0 ==> !IsSpace(s[j - 1])
  {
    if |s| == 0 || !IsSpace(s[|s| - 1]) then |s| else TrimEnd(s[..|s| - 1])
  }

  /** `strings.TrimSpace`: the longest slice of `s` with white space only
      outside it. */
  function TrimSpace(s: string): (r: string)
    ensures IsTrimmed(r)
    ensures r == "" <==> IsBlank(s)
    ensures !IsBlank(s) ==> TrimStart(s) < TrimEnd(s) && r == s[TrimStart(s)..TrimEnd(s)]
  {
    var i := TrimStart(s);
    if i == |s| then "" else s[i..TrimEnd(s)]
  }

  lemma TrimSpaceOfTrimmed(s: string)
    requires IsTrimmed(s)
    ensures TrimSpace(s) == s
  {
    if |s| > 0 {
      assert TrimStart(s) == 0;
      assert TrimEnd(s) == |s|;
    }
  }

  /** White space around a trimmed, non-empty string is all that
      `TrimSpace` removes. */
  lemma TrimPadded(pad: string, s: string)
    requires IsBlank(pad) && IsTrimmed(s) && s != ""
    ensures TrimSpace(pad + s + pad) == s
  {
    var t := pad + s + pad;
    var a, b := |pad|, |pad| + |s|;
    assert t[a] == s[0] && t[b - 1] == s[|s| - 1];
    assert forall k :: 0 <= k < a ==> t[k] == pad[k];
    assert forall k :: b <= k < |t| ==> t[k] == pad[k - b];
    assert TrimStart(t) == a;
    assert TrimEnd(t) == b;
    assert t[a..b] == s;
  }

  /** Trimming and ASCII lower-casing commute, because lower-casing maps
      white space to white space and nothing else to it. */
  lemma TrimLowerCommute(s: string)
    ensures TrimSpace(ToLower(s)) == ToLower(TrimSpace(s))
  {
    var l := ToLower(s);
    var i, j := TrimStart(s), TrimEnd(s);
    var i', j' := TrimStart(l), TrimEnd(l);
    assert i' == i;
    assert j' == j;
    if !IsBlank(s) {
      ToLowerSlice(s, i, j);
    }
  }

  /** The case- and space-insensitive key Go code builds with
      `strings.ToLower(strings.TrimSpace(v))`. */
  function Key(v: string): (k: string)
    ensures |k| == |TrimSpace(v)|
  {
    ToLower(TrimSpace(v))
  }

  lemma KeyIdempotent(v: string)
    ensures Key(Key(v)) == Key(v)
  {
    var t := TrimSpace(v);
    TrimLowerCommute(t);
    TrimSpaceOfTrimmed(t);
    ToLowerIdempotent(t);
  }

  // ---------------------------------------------------------------------
  // Substring search

  predicate OccursAt(text: string, pat: string, i: nat)
  {
    i + |pat| <= |text| && text[i..i + |pat|] == pat
  }

  /** `strings.Contains`: `pat` occurs somewhere in `text`; the empty
      pattern occurs in every text. */
  predicate Contains(text: string, pat: string)
  {
    exists i: nat :: i <= |text| && OccursAt(text, pat, i)
  }

  lemma ContainsItself(s: string)
    ensures Contains(s, s)
  {
    assert OccursAt(s, s, 0);
  }

  /** Every prefix of an occurring pattern occurs too. */
  lemma ContainsPrefix(text: string, a: string, b: string)
    requires Contains(text, a + b)
    ensures Contains(text, a)
  {
    var i: nat :| i <= |text| && OccursAt(text, a + b, i);
    assert text[i..i + |a|] == (a + b)[..|a|];
    assert OccursAt(text, a, i);
  }

  // ---------------------------------------------------------------------
  // Decimal numbers

  function DigitValue(c: char): (d: nat)
    requires IsDigit(c)
    ensures d < 10
  {
    c as int - '0' as int
  }

  function DigitChar(d: nat): (c: char)
    requires d < 10
    ensures IsDigit(c) && DigitValue(c) == d
  {
    ('0' as int + d) as char
  }

  /** The value of a string of decimal digits, most significant first. */
  function DecimalValue(ds: string): nat
    requires AllDigits(ds)
  {
    if |ds| == 0 then 0 else 10 * DecimalValue(ds[..|ds| - 1]) + DigitValue(ds[|ds| - 1])
  }

  /** `strconv.Itoa` on a non-negative number: the canonical decimal
      spelling, which reads back as the same number. */
  function NatToString(n: nat): (s: string)
    ensures |s| > 0 && AllDigits(s)
    ensures DecimalValue(s) == n
    ensures |s| > 1 ==> s[0] != '0'
  {
    if n < 10 then [DigitChar(n)]
    else
      var front := NatToString(n / 10);
      var s := front + [DigitChar(n % 10)];
      assert s[..|s| - 1] == front;
      s
  }

  /** Bounds of Go's 64-bit `int`. */
  const MinInt: int := -0x8000_0000_0000_0000
  const MaxInt: int := 0x7FFF_FFFF_FFFF_FFFF

  /** `strconv.Atoi`: an optional sign, then one or more decimal digits,
      with a value that fits in `int`; anything else is an error (`None`). */
  function Atoi(s: string): (r: Option<int>)
    ensures r.Some? ==> MinInt <= r.value <= MaxInt
    ensures AllDigits(s) && |s| > 0 ==> (r.Some? <==> DecimalValue(s) <= MaxInt)
    ensures AllDigits(s) && |s| > 0 && r.Some? ==> r.value == DecimalValue(s)
    ensures |s| == 0 ==> r.None?
  {
    if |s| == 0 then None
    else
      var negative := s[0] == '-';
      var digits := if s[0] == '-' || s[0] == '+' then s[1..] else s;
      if |digits| == 0 || !AllDigits(digits) then None
      else
        var v: int := if negative then 0 - DecimalValue(digits) else DecimalValue(digits);
        if MinInt <= v <= MaxInt then Some(v) else None
  }

  // ---------------------------------------------------------------------
  // Ordering

  /** Go's `<` on strings: byte-wise order of the UTF-8 encodings, which is
      the lexicographic order of the code points. */
  predicate LexLess(a: string, b: string)
  {
    if |a| == 0 then |b| > 0
    else if |b| == 0 then false
    else if a[0] != b[0] then a[0] < b[0]
    else LexLess(a[1..], b[1..])
  }

  lemma LexLessIrreflexive(a: string)
    ensures !LexLess(a, a)
  {
  }

  lemma LexLessTransitive(a: string, b: string, c: string)
    requires LexLess(a, b) && LexLess(b, c)
    ensures LexLess(a, c)
  {
    if |a| > 0 && |b| > 0 && |c| > 0 && a[0] == b[0] && b[0] == c[0] {
      LexLessTransitive(a[1..], b[1..], c[1..]);
    }
  }

  lemma LexLessTotal(a: string, b: string)
    requires a != b
    ensures LexLess(a, b) || LexLess(b, a)
  {
    if |a| > 0 && |b| > 0 && a[0] == b[0] {
      assert a == [a[0]] + a[1..] && b == [b[0]] + b[1..];
      LexLessTotal(a[1..], b[1..]);
    }
  }

  lemma LexLessAsymmetric(a: string, b: string)
    requires LexLess(a, b)
    ensures !LexLess(b, a)
  {
    if |a| > 0 && |b| > 0 && a[0] == b[0] {
      LexLessAsymmetric(a[1..], b[1..]);
    }
  }
}
