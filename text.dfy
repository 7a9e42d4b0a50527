/** The string primitives the catalog relies on: `toLowerCase`, `trim`,
    `includes`, the default (code-unit) string order used by `Array.prototype.sort`
    and the collation used by `localeCompare`. */
module Text {

  /** ECMAScript WhiteSpace and LineTerminator code points: what `String.prototype.trim` strips. */
  predicate IsWhitespace(c: char) {
    c == '\U{9}' || c == '\U{A}' || c == '\U{B}' || c == '\U{C}' || c == '\U{D}' ||
    c == ' ' || c == '\U{A0}' || c == '\U{1680}' || ('\U{2000}' <= c <= '\U{200A}') ||
    c == '\U{2028}' || c == '\U{2029}' || c == '\U{202F}' || c == '\U{205F}' || c == '\U{3000}' ||
    c == '\U{FEFF}'
  }

  /** Lower-casing of one character: Latin A-Z and the Cyrillic capitals U+0400..U+042F
      (which include Ё and А..Я). Every other character is left as it is. */
  function LowerChar(c: char): (r: char)
    ensures !IsUpper(r)
    ensures !IsUpper(c) ==> r == c
    ensures IsUpper(c) ==> IsLower(r) && UpperChar(r) == c
  {
    if 'A' <= c <= 'Z' then (c as int + 32) as char
    else if '\U{410}' <= c <= '\U{42F}' then (c as int + 32) as char
    else if '\U{400}' <= c <= '\U{40F}' then (c as int + 80) as char
    else c
  }

  predicate IsUpper(c: char) {
    ('A' <= c <= 'Z') || ('\U{400}' <= c <= '\U{42F}')
  }

  /** The small letters the capitals above map to: a-z, а..я (U+0430..U+044F) and
      ѐ..џ (U+0450..U+045F). */
  predicate IsLower(c: char) {
    ('a' <= c <= 'z') || ('\U{430}' <= c <= '\U{45F}')
  }

  /** The capital of a small letter, the inverse of LowerChar on the capitals. */
  function UpperChar(c: char): char {
    if 'a' <= c <= 'z' then (c as int - 32) as char
    else if '\U{430}' <= c <= '\U{44F}' then (c as int - 32) as char
    else if '\U{450}' <= c <= '\U{45F}' then (c as int - 80) as char
    else c
  }

  function ToLower(s: string): (r: string)
    ensures |r| == |s|
    ensures forall i :: 0 <= i < |s| ==> r[i] == LowerChar(s[i])
  {
    seq(|s|, i requires 0 <= i < |s| => LowerChar(s[i]))
  }

  /** Drops the leading whitespace. */
  function TrimStart(s: string): (r: string)
    ensures |r| <= |s| && r == s[|s| - |r|..]
    ensures r == [] || !IsWhitespace(r[0])
    ensures forall k :: 0 <= k < |s| - |r| ==> IsWhitespace(s[k])
  {
    if s == [] || !IsWhitespace(s[0]) then s else TrimStart(s[1..])
  }

  /** Drops the trailing whitespace. */
  function TrimEnd(s: string): (r: string)
    ensures |r| <= |s| && r == s[..|r|]
    ensures r == [] || !IsWhitespace(r[|r| - 1])
    ensures forall k :: |r| <= k < |s| ==> IsWhitespace(s[k])
  {
    if s == [] || !IsWhitespace(s[|s| - 1]) then s else TrimEnd(s[..|s| - 1])
  }

  /** `String.prototype.trim`: the longest infix of `s` that starts and ends with a
      non-whitespace character; everything cut off is whitespace. */
  function Trim(s: string): (r: string)
    ensures Contains(s, r)
    ensures r == [] || (!IsWhitespace(r[0]) && !IsWhitespace(r[|r| - 1]))
    ensures exists i, j :: 0 <= i <= j <= |s| && r == s[i..j] && WhitespaceOutside(s, i, j)
  {
    var t := TrimStart(s);
    var r := TrimEnd(t);
    var i := |s| - |t|;
    InfixAfterCuts(s, t, r);
    assert OccursAt(s, r, i);
    r
  }

  /** Cutting whitespace off the front of `s`, giving `t`, and then off the end of
      `t`, giving `r`, leaves `r` as an infix of `s` with only whitespace around it. */
  lemma InfixAfterCuts(s: string, t: string, r: string)
    requires |t| <= |s| && t == s[|s| - |t|..]
    requires forall k :: 0 <= k < |s| - |t| ==> IsWhitespace(s[k])
    requires |r| <= |t| && r == t[..|r|]
    requires forall k :: |r| <= k < |t| ==> IsWhitespace(t[k])
    ensures r == [] || r[0] == t[0]
    ensures r == s[|s| - |t|..|s| - |t| + |r|]
    ensures WhitespaceOutside(s, |s| - |t|, |s| - |t| + |r|)
  {
    var i := |s| - |t|;
    assert r == s[i..][..|r|] == s[i..i + |r|];
    if r != [] {
      assert r[0] == t[0];
    }
    forall k | i + |r| <= k < |s| ensures IsWhitespace(s[k]) {
      assert s[k] == t[k - i];
    }
  }

  /** Everything of `s` before index `i` and from index `j` on is whitespace. */
  predicate WhitespaceOutside(s: string, i: int, j: int) {
    && (forall k :: 0 <= k < i && k < |s| ==> IsWhitespace(s[k]))
    && (forall k :: j <= k < |s| && 0 <= k ==> IsWhitespace(s[k]))
  }

  /** A trimmed string is empty exactly when the input was all whitespace. */
  lemma TrimEmptyIff(s: string)
    ensures Trim(s) == [] <==> forall k :: 0 <= k < |s| ==> IsWhitespace(s[k])
  {
    var r := Trim(s);
    var i, j :| 0 <= i <= j <= |s| && r == s[i..j] && WhitespaceOutside(s, i, j);
    if r != [] {
      assert r[0] == s[i];
    } else {
      // nothing is kept, so everything was cut off as whitespace
      assert i == j;
    }
  }

  /** `String.prototype.includes`: `q` occurs in `s` as a contiguous substring. */
  predicate Contains(s: string, q: string) {
    exists i | 0 <= i <= |s| :: OccursAt(s, q, i)
  }

  /** `q` occurs in `s` starting at index `i`. */
  predicate OccursAt(s: string, q: string, i: int) {
    0 <= i <= |s| - |q| && s[i..i + |q|] == q
  }

  /** Every string contains the empty string. */
  lemma ContainsEmpty(s: string)
    ensures Contains(s, "")
  {
    assert OccursAt(s, "", 0);
  }

  /** Default order of `Array.prototype.sort` on strings: lexicographic by code unit,
      a proper prefix coming first. */
  predicate CodeUnitLess(a: string, b: string) {
    if b == [] then false
    else if a == [] then true
    else if a[0] != b[0] then a[0] < b[0]
    else CodeUnitLess(a[1..], b[1..])
  }

  lemma {:induction false} CodeUnitLessIrreflexive(a: string)
    ensures !CodeUnitLess(a, a)
  {
    if a != [] {
      CodeUnitLessIrreflexive(a[1..]);
    }
  }

  lemma {:induction false} CodeUnitLessAsymmetric(a: string, b: string)
    requires CodeUnitLess(a, b)
    ensures !CodeUnitLess(b, a)
  {
    if a != [] && a[0] == b[0] {
      CodeUnitLessAsymmetric(a[1..], b[1..]);
    }
  }

  lemma {:induction false} CodeUnitLessTrichotomy(a: string, b: string)
    ensures a == b || CodeUnitLess(a, b) || CodeUnitLess(b, a)
  {
    if a != [] && b != [] && a[0] == b[0] {
      CodeUnitLessTrichotomy(a[1..], b[1..]);
      if a[1..] == b[1..] {
        assert a == [a[0]] + a[1..] && b == [b[0]] + b[1..];
      }
    }
  }

  lemma {:induction false} CodeUnitLessTransitive(a: string, b: string, c: string)
    requires CodeUnitLess(a, b) && CodeUnitLess(b, c)
    ensures CodeUnitLess(a, c)
  {
    if a != [] && a[0] == b[0] && b[0] == c[0] {
      CodeUnitLessTransitive(a[1..], b[1..], c[1..]);
    }
  }

  /** `localeCompare(b, 'ru')`: negative, zero or positive as `a` collates before, with or after `b`.
      The model collates by code unit (see README). */
  function LocaleCompare(a: string, b: string): (r: real)
    ensures r == -1.0 || r == 0.0 || r == 1.0
    ensures r == -1.0 <==> CodeUnitLess(a, b)
    ensures r == 0.0 <==> a == b
  {
    CodeUnitLessAsymmetricBoth(a, b);
    CodeUnitLessTrichotomy(a, b);
    if CodeUnitLess(a, b) then -1.0 else if a == b then 0.0 else 1.0
  }

  lemma CodeUnitLessAsymmetricBoth(a: string, b: string)
    ensures !(CodeUnitLess(a, b) && CodeUnitLess(b, a))
    ensures !CodeUnitLess(a, a)
  {
    if CodeUnitLess(a, b) {
      CodeUnitLessAsymmetric(a, b);
    }
    CodeUnitLessIrreflexive(a);
  }

  /** Swapping the arguments negates the comparison. */
  lemma LocaleCompareAntisymmetric(a: string, b: string)
    ensures LocaleCompare(b, a) == -LocaleCompare(a, b)
  {
    CodeUnitLessAsymmetricBoth(a, b);
    CodeUnitLessTrichotomy(a, b);
  }

  /** Collation is a total preorder: "collates no later than" is transitive. */
  lemma LocaleCompareTransitive(a: string, b: string, c: string)
    requires LocaleCompare(a, b) <= 0.0 && LocaleCompare(b, c) <= 0.0
    ensures LocaleCompare(a, c) <= 0.0
  {
    if a != b && b != c {
      CodeUnitLessTransitive(a, b, c);
      CodeUnitLessAsymmetricBoth(a, c);
    }
  }
}
