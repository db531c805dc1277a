/** The handful of Python `str` operations the pipeline relies on: `strip()`, `split(c)[0]`,
    `lower()`, `isdigit()` and `int()`. */
module Text {

  /** The characters Python's `str.isspace` accepts, which `str.strip()` removes: tab to
      carriage return, the four ASCII separators, space, U+0085, U+00A0, U+1680, U+2000 to
      U+200A, U+2028, U+2029, U+202F, U+205F and U+3000. */
  predicate IsSpace(c: char) {
    c in Whitespace
  }

  const Whitespace: set<char> := {
    '\t', '\n', '\U{0B}', '\U{0C}', '\r', '\U{1C}', '\U{1D}', '\U{1E}', '\U{1F}', ' ',
    '\U{85}', '\U{A0}', '\U{1680}',
    '\U{2000}', '\U{2001}', '\U{2002}', '\U{2003}', '\U{2004}', '\U{2005}', '\U{2006}',
    '\U{2007}', '\U{2008}', '\U{2009}', '\U{200A}',
    '\U{2028}', '\U{2029}', '\U{202F}', '\U{205F}', '\U{3000}'
  }

  /** `s.strip()` is empty: `s` holds only whitespace. */
  predicate IsBlank(s: string) {
    forall i :: 0 <= i < |s| ==> IsSpace(s[i])
  }

  /** Length of the leading run of whitespace. */
  function LeadLength(s: string): (n: nat)
    ensures n <= |s|
    ensures forall i :: 0 <= i < n ==> IsSpace(s[i])
    ensures n == |s| || !IsSpace(s[n])
    decreases |s|
  {
    if s != [] && IsSpace(s[0]) then
      var n := 1 + LeadLength(s[1..]);
      assert forall i :: 1 <= i < n ==> s[i] == s[1..][i - 1];
      n
    else 0
  }

  /** Length of the trailing run of whitespace. */
  function TrailLength(s: string): (n: nat)
    ensures n <= |s|
    ensures forall i :: |s| - n <= i < |s| ==> IsSpace(s[i])
    ensures n == |s| || !IsSpace(s[|s| - 1 - n])
    decreases |s|
  {
    if s != [] && IsSpace(s[|s| - 1]) then 1 + TrailLength(s[..|s| - 1]) else 0
  }

  /** Python's `s.strip()`: the text with whitespace removed at both ends. */
  function Strip(s: string): (r: string)
    ensures r == [] <==> IsBlank(s)
    ensures r != [] ==> !IsSpace(r[0]) && !IsSpace(r[|r| - 1])
    ensures var i := LeadLength(s);
      i + |r| <= |s| && s[i..i + |r|] == r && IsBlank(s[..i]) && IsBlank(s[i + |r|..])
  {
    var a := LeadLength(s);
    var b := TrailLength(s[a..]);
    StripCut(s, a, b);
    s[a..|s| - b]
  }

  lemma StripCut(s: string, a: nat, b: nat)
    requires a == LeadLength(s) && b == TrailLength(s[a..])
    ensures a + b <= |s|
    ensures var r := s[a..|s| - b];
      && (r == [] <==> IsBlank(s))
      && (r != [] ==> !IsSpace(r[0]) && !IsSpace(r[|r| - 1]))
      && s[a..a + |r|] == r && IsBlank(s[..a]) && IsBlank(s[a + |r|..])
  {
    StripEmpty(s, a, b);
    StripEnds(s, a, b);
    StripTail(s, a, b);
    assert a + |s[a..|s| - b]| == |s| - b;
  }

  lemma StripEnds(s: string, a: nat, b: nat)
    requires a == LeadLength(s) && b == TrailLength(s[a..])
    ensures a + b <= |s|
    ensures var r := s[a..|s| - b]; r != [] ==> !IsSpace(r[0]) && !IsSpace(r[|r| - 1])
  {
    var t := s[a..];
    var r := s[a..|s| - b];
    if r != [] {
      assert r[0] == s[a];
      assert r[|r| - 1] == t[|t| - 1 - b];
    }
  }

  lemma StripTail(s: string, a: nat, b: nat)
    requires a == LeadLength(s) && b == TrailLength(s[a..])
    ensures a + b <= |s|
    ensures IsBlank(s[..a]) && IsBlank(s[|s| - b..])
  {
    var t := s[a..];
    assert forall i :: |t| - b <= i < |t| ==> IsSpace(t[i]);
    BlankSlices(s, a, b, t);
  }

  lemma BlankSlices(s: string, a: nat, b: nat, t: string)
    requires a + b <= |s| && t == s[a..]
    requires forall i :: 0 <= i < a ==> IsSpace(s[i])
    requires forall i :: |t| - b <= i < |t| ==> IsSpace(t[i])
    ensures IsBlank(s[..a]) && IsBlank(s[|s| - b..])
  {
    var u := s[|s| - b..];
    forall i | 0 <= i < |u|
      ensures IsSpace(u[i])
    {
      assert u[i] == t[|t| - b + i];
    }
    forall i | 0 <= i < a
      ensures IsSpace(s[..a][i])
    {
      assert s[..a][i] == s[i];
    }
  }

  lemma StripEmpty(s: string, a: nat, b: nat)
    requires a == LeadLength(s) && b == TrailLength(s[a..])
    ensures a + b == |s| <==> IsBlank(s)
  {
    var t := s[a..];
    if a + b == |s| {
      assert b == |t|;
      assert IsBlank(s);
    }
    if IsBlank(s) {
      assert a == |s|;
    }
  }

  /** `strip()` only removes characters, so a character absent from `s` stays absent. */
  lemma StripAvoids(s: string, c: char)
    requires c !in s
    ensures c !in Strip(s)
  {
    var r := Strip(s);
    var i := LeadLength(s);
    assert forall k :: 0 <= k < |r| ==> r[k] == s[i + k];
  }

  /** Text that already has no whitespace at either end is left alone by `strip()`. */
  lemma StripTrimmed(s: string)
    ensures (s != [] ==> !IsSpace(s[0]) && !IsSpace(s[|s| - 1])) ==> Strip(s) == s
  {
  }

  /** Python's `s.split(c)[0]`: the text before the first `c`, or all of `s` if there is none. */
  function BeforeFirst(s: string, c: char): (r: string)
    ensures c !in r
    ensures r <= s
    ensures |r| < |s| ==> s[|r|] == c
    decreases |s|
  {
    if s == [] || s[0] == c then [] else [s[0]] + BeforeFirst(s[1..], c)
  }

  /** Cutting at `c` only looks past a prefix that holds no `c`. */
  lemma {:induction false} BeforeFirstAppend(t: string, u: string, c: char)
    requires c !in t
    ensures BeforeFirst(t + u, c) == t + BeforeFirst(u, c)
    decreases |t|
  {
    if t != [] {
      assert (t + u)[1..] == t[1..] + u;
      BeforeFirstAppend(t[1..], u, c);
      assert t == [t[0]] + t[1..];
    } else {
      assert t + u == u;
    }
  }

  /** Text without `c` is its own prefix before `c`. */
  lemma BeforeFirstAbsent(s: string, c: char)
    requires c !in s
    ensures BeforeFirst(s, c) == s
  {
  }

  /** ASCII case folding of one character. */
  function LowerChar(c: char): char {
    if 'A' <= c <= 'Z' then (c as int + 32) as char else c
  }

  predicate IsUpper(c: char) {
    'A' <= c <= 'Z'
  }

  /** Python's `s.lower()` on the ASCII letters. */
  function Lower(s: string): (r: string)
    ensures |r| == |s|
    ensures forall i :: 0 <= i < |r| ==> !IsUpper(r[i])
    ensures forall i :: 0 <= i < |r| ==> !IsUpper(s[i]) ==> r[i] == s[i]
    ensures forall i :: 0 <= i < |r| ==> IsUpper(s[i]) ==> r[i] as int == s[i] as int + 32
  {
    seq(|s|, i requires 0 <= i < |s| => LowerChar(s[i]))
  }

  /** Lower-casing never creates or removes whitespace, and leaves every character that is
      not a letter where it was. */
  lemma LowerKeepsSpaces(s: string)
    ensures forall i :: 0 <= i < |s| ==> (IsSpace(Lower(s)[i]) <==> IsSpace(s[i]))
  {
  }

  /** Text without upper-case letters is its own lower-case form. */
  lemma LowerLowercase(s: string)
    requires forall i :: 0 <= i < |s| ==> !IsUpper(s[i])
    ensures Lower(s) == s
  {
  }

  lemma LowerAvoids(s: string, c: char)
    requires c !in s
    requires !('a' <= c <= 'z')
    ensures c !in Lower(s)
  {
    var r := Lower(s);
    assert forall k :: 0 <= k < |r| ==> r[k] != c;
  }

  predicate IsDigit(c: char) {
    '0' <= c <= '9'
  }

  /** Python's `s.isdigit()` on ASCII digits: non-empty and every character a digit. */
  function IsDigits(s: string): (b: bool)
    ensures b ==> s != []
    ensures b ==> forall c :: c in s ==> '0' <= c <= '9'
    ensures s != [] && (forall c :: c in s ==> '0' <= c <= '9') ==> b
  {
    assert forall i :: 0 <= i < |s| ==> s[i] in s;
    |s| > 0 && forall i :: 0 <= i < |s| ==> IsDigit(s[i])
  }

  function Pow10(n: nat): (p: nat)
    ensures p >= 1
  {
    if n == 0 then 1 else 10 * Pow10(n - 1)
  }

  /** Python's `int(s)` on a digit string, read in base 10; leading zeros are allowed. */
  function DigitsValue(s: string): (v: nat)
    requires forall i :: 0 <= i < |s| ==> IsDigit(s[i])
    ensures v < Pow10(|s|)
    decreases |s|
  {
    if s == [] then 0
    else
      var d := s[|s| - 1] as int - '0' as int;
      assert IsDigit(s[|s| - 1]);
      var v := DigitsValue(s[..|s| - 1]);
      assert v * 10 + d < Pow10(|s|) by {
        assert v + 1 <= Pow10(|s| - 1);
        assert (v + 1) * 10 <= Pow10(|s| - 1) * 10;
      }
      v * 10 + d
  }

  /** Decimal rendering of a natural number, without leading zeros. */
  function ShowNat(n: nat): (s: string)
    ensures IsDigits(s)
    ensures |s| > 1 ==> s[0] != '0'
    decreases n
  {
    if n < 10 then [('0' as int + n) as char]
    else ShowNat(n / 10) + [('0' as int + n % 10) as char]
  }

  /** `int(str(n)) == n`. */
  lemma {:induction false} DigitsValueShowNat(n: nat)
    ensures DigitsValue(ShowNat(n)) == n
    decreases n
  {
    if n >= 10 {
      DigitsValueShowNat(n / 10);
      var s := ShowNat(n);
      assert s[..|s| - 1] == ShowNat(n / 10);
    }
  }

  /** A leading zero does not change the number read. */
  lemma {:induction false} DigitsValueLeadingZero(s: string)
    requires forall i :: 0 <= i < |s| ==> IsDigit(s[i])
    ensures DigitsValue("0" + s) == DigitsValue(s)
    decreases |s|
  {
    if s != [] {
      var t := "0" + s;
      assert t[..|t| - 1] == "0" + s[..|s| - 1];
      DigitsValueLeadingZero(s[..|s| - 1]);
    }
  }
}
