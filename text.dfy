/**
 * The few pieces of Python's string handling that the flowchart builder relies on:
 * `str.strip()`, `str.upper()` as far as it matters for comparing with "SIM", and
 * `str(n)` for a non-negative integer.
 */
module Text {

  /** The characters for which Python's `str.isspace()` holds; `str.strip()` removes them. */
  predicate IsSpace(c: char) {
    || ('\t' <= c <= '\r')            // \t \n \x0b \x0c \r
    || ('\U{1C}' <= c <= '\U{1F}')    // file, group, record and unit separators
    || c == ' ' || c == '\U{85}' || c == '\U{A0}' || c == '\U{1680}'
    || ('\U{2000}' <= c <= '\U{200A}')
    || c == '\U{2028}' || c == '\U{2029}' || c == '\U{202F}' || c == '\U{205F}' || c == '\U{3000}'
  }

  /** `s.lstrip()`: drops the leading whitespace. */
  function TrimLeft(s: string): (r: string)
    ensures |r| <= |s|
  {
    if s != [] && IsSpace(s[0]) then TrimLeft(s[1..]) else s
  }

  /** `s.rstrip()`: drops the trailing whitespace. */
  function TrimRight(s: string): (r: string)
    ensures |r| <= |s|
  {
    if s != [] && IsSpace(s[|s| - 1]) then TrimRight(s[..|s| - 1]) else s
  }

  /** `s.strip()` */
  function Strip(s: string): string {
    TrimRight(TrimLeft(s))
  }

  /** `lstrip()` keeps a suffix, cuts only whitespace, and leaves no whitespace in front. */
  lemma {:induction false} TrimLeftSpec(s: string)
    ensures var r := TrimLeft(s);
      && |r| <= |s| && r == s[|s| - |r|..]
      && (forall i :: 0 <= i < |s| - |r| ==> IsSpace(s[i]))
      && (r != [] ==> !IsSpace(r[0]))
  {
    if s != [] && IsSpace(s[0]) {
      TrimLeftSpec(s[1..]);
    }
  }

  /** `rstrip()` keeps a prefix, cuts only whitespace, and leaves no whitespace at the end. */
  lemma {:induction false} TrimRightSpec(s: string)
    ensures var r := TrimRight(s);
      && |r| <= |s| && r == s[..|r|]
      && (forall i :: |r| <= i < |s| ==> IsSpace(s[i]))
      && (r != [] ==> !IsSpace(r[|r| - 1]))
  {
    if s != [] && IsSpace(s[|s| - 1]) {
      TrimRightSpec(s[..|s| - 1]);
    }
  }

  /**
   * `s.strip()` is the slice of `s` left once the whitespace at both ends is cut off:
   * what is kept neither starts nor ends with whitespace, and (`StripCutsSpace`) what is
   * cut is whitespace.
   */
  lemma StripIsCore(s: string)
    ensures var a, r := |s| - |TrimLeft(s)|, Strip(s);
      && a + |r| <= |s| && r == s[a..a + |r|]
      && (r != [] ==> !IsSpace(r[0]) && !IsSpace(r[|r| - 1]))
  {
    var l := TrimLeft(s);
    var r := TrimRight(l);
    var a := |s| - |l|;
    TrimLeftSpec(s);
    TrimRightSpec(l);
    PrefixOfSuffix(s, a, |r|);
    if r != [] {
      assert r[0] == l[0];
    }
  }

  /** The first `n` characters of `s[a..]` are `s[a..a + n]`. */
  lemma PrefixOfSuffix(s: string, a: nat, n: nat)
    requires a + n <= |s|
    ensures s[a..][..n] == s[a..a + n]
  {
  }

  lemma StripCutsSpace(s: string)
    ensures var a, r := |s| - |TrimLeft(s)|, Strip(s);
      && a + |r| <= |s|
      && (forall i :: 0 <= i < a ==> IsSpace(s[i]))
      && (forall i :: a + |r| <= i < |s| ==> IsSpace(s[i]))
  {
    var l := TrimLeft(s);
    var r := TrimRight(l);
    var a := |s| - |l|;
    TrimLeftSpec(s);
    TrimRightSpec(l);
    forall i | a + |r| <= i < |s| ensures IsSpace(s[i]) {
      assert s[i] == l[i - a];
    }
  }

  /** Stripping twice is stripping once. */
  lemma StripIdempotent(s: string)
    ensures Strip(Strip(s)) == Strip(s)
  {
    var r := Strip(s);
    if r != [] {
      StripIsCore(s);
      TrimLeftSpec(r);
      TrimRightSpec(r);
      assert TrimLeft(r) == r;
      assert TrimRight(r) == r;
    }
  }

  /**
   * `c.upper()` for a single character: ASCII lower-case letters, and the two non-ASCII
   * letters whose upper case is an ASCII letter (dotless i and long s); every other
   * character is left as it is.
   */
  function UpperChar(c: char): char {
    if 'a' <= c <= 'z' then (c as int - 'a' as int + 'A' as int) as char
    else if c == '\U{131}' then 'I'
    else if c == '\U{17F}' then 'S'
    else c
  }

  /** A character that `UpperChar` maps to something else. */
  predicate HasUpper(c: char) {
    'a' <= c <= 'z' || c == '\U{131}' || c == '\U{17F}'
  }

  /**
   * `s.upper()`, character by character: a lower-case ASCII letter becomes its capital,
   * 32 code points lower, every other character without an upper case is kept, and no
   * character of the result has an upper case left.
   */
  function Upper(s: string): (r: string)
    ensures |r| == |s|
    ensures forall i :: 0 <= i < |s| && 'a' <= s[i] <= 'z' ==> r[i] as int == s[i] as int - 32
    ensures forall i :: 0 <= i < |s| && !HasUpper(s[i]) ==> r[i] == s[i]
    ensures forall i :: 0 <= i < |r| ==> !HasUpper(r[i])
  {
    seq(|s|, i requires 0 <= i < |s| => UpperChar(s[i]))
  }

  /** The characters that `upper()` turns into `L`, for an ASCII capital `L`. */
  predicate UpperIs(c: char, L: char)
    requires 'A' <= L <= 'Z'
  {
    c == L || c as int == L as int + 32 || (L == 'I' && c == '\U{131}') || (L == 'S' && c == '\U{17F}')
  }

  /** `s` spells "sim" in some mix of cases (counting the letters `upper()` maps onto I and S). */
  predicate SpellsSim(s: string) {
    |s| == 3 && UpperIs(s[0], 'S') && UpperIs(s[1], 'I') && UpperIs(s[2], 'M')
  }

  /** `s.upper() == "SIM"` holds exactly when `s` spells "sim" in any mix of cases. */
  lemma UpperIsSim(s: string)
    ensures Upper(s) == "SIM" <==> SpellsSim(s)
  {
    if |s| == 3 {
      var u := Upper(s);
      assert u == "SIM" <==> u[0] == 'S' && u[1] == 'I' && u[2] == 'M';
    }
  }

  function DigitChar(d: nat): (c: char)
    requires d < 10
    ensures '0' <= c <= '9'
  {
    ('0' as int + d) as char
  }

  /** `str(n)` for a non-negative integer: its decimal digits, with no leading zero. */
  function NatStr(n: nat): (r: string)
    ensures 1 <= |r|
    ensures forall i :: 0 <= i < |r| ==> '0' <= r[i] <= '9'
    ensures |r| > 1 ==> r[0] != '0'
  {
    if n < 10 then [DigitChar(n)] else NatStr(n / 10) + [DigitChar(n % 10)]
  }

  /** Different numbers have different decimal forms. */
  lemma {:induction false} NatStrInjective(m: nat, n: nat)
    requires NatStr(m) == NatStr(n)
    ensures m == n
  {
    var r := NatStr(m);
    if 10 <= m && 10 <= n {
      assert r[..|r| - 1] == NatStr(m / 10);
      assert NatStr(n)[..|r| - 1] == NatStr(n / 10);
      NatStrInjective(m / 10, n / 10);
    }
  }
}
