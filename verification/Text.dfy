/** The string operations the conversion layer applies to the requested
    target type (`str.lower`, `str.strip`) and to page numbers (`str(int)`). */
module Text {

  // ---------------------------------------------------------------- lower()

  predicate IsUpper(c: char) {
    'A' <= c <= 'Z'
  }

  /** Lower-casing of one character: ASCII letters only (see README). */
  function LowerChar(c: char): (r: char)
    ensures !IsUpper(r)
    ensures IsUpper(c) ==> r as int == c as int + 32
    ensures !IsUpper(c) ==> r == c
  {
    if IsUpper(c) then (c as int + 32) as char else c
  }

  /** `s.lower()`: every character is lower-cased in place. */
  function ToLower(s: string): (r: string)
    ensures |r| == |s|
    ensures forall i :: 0 <= i < |s| ==> r[i] == LowerChar(s[i])
  {
    if s == [] then [] else [LowerChar(s[0])] + ToLower(s[1..])
  }

  predicate NoUpper(s: string) {
    forall i :: 0 <= i < |s| ==> !IsUpper(s[i])
  }

  // ---------------------------------------------------------------- strip()

  /** The characters for which `str.isspace()` holds. */
  predicate IsSpace(c: char) {
    var x := c as int;
    || x == 0x20 || 0x09 <= x <= 0x0D || 0x1C <= x <= 0x1F
    || x == 0x85 || x == 0xA0 || x == 0x1680 || 0x2000 <= x <= 0x200A
    || x == 0x2028 || x == 0x2029 || x == 0x202F || x == 0x205F || x == 0x3000
  }

  predicate AllSpace(s: string) {
    forall i :: 0 <= i < |s| ==> IsSpace(s[i])
  }

  /** Drops the leading whitespace: the result is the longest suffix of `s`
      that does not start with whitespace. */
  function TrimLeft(s: string): (r: string)
    ensures |r| <= |s| && r == s[|s| - |r|..]
    ensures AllSpace(s[..|s| - |r|])
    ensures r == [] || !IsSpace(r[0])
  {
    if s != [] && IsSpace(s[0]) then TrimLeft(s[1..]) else s
  }

  /** Drops the trailing whitespace: the result is the longest prefix of `s`
      that does not end with whitespace. */
  function TrimRight(s: string): (r: string)
    ensures |r| <= |s| && r == s[..|r|]
    ensures AllSpace(s[|r|..])
    ensures r == [] || !IsSpace(r[|r| - 1])
  {
    if s != [] && IsSpace(s[|s| - 1]) then TrimRight(s[..|s| - 1]) else s
  }

  /** `s.strip()`: a contiguous slice of `s` with whitespace at neither end,
      everything cut away on either side being whitespace. */
  function Strip(s: string): (r: string)
    ensures r == [] || (!IsSpace(r[0]) && !IsSpace(r[|r| - 1]))
    ensures StripStart(s) + |r| <= |s| && r == s[StripStart(s)..StripStart(s) + |r|]
    ensures AllSpace(s[..StripStart(s)]) && AllSpace(s[StripStart(s) + |r|..])
  {
    var l := TrimLeft(s);
    var r := TrimRight(l);
    SliceOfSuffix(s, l, r);
    r
  }

  /** Where the stripped text starts in `s`. */
  function StripStart(s: string): nat
  {
    |s| - |TrimLeft(s)|
  }

  lemma SliceOfSuffix(s: string, l: string, r: string)
    requires |l| <= |s| && l == s[|s| - |l|..]
    requires |r| <= |l| && r == l[..|r|]
    requires AllSpace(l[|r|..])
    ensures var k := |s| - |l|; r == s[k..k + |r|] && AllSpace(s[k + |r|..])
  {
    var k := |s| - |l|;
    assert s[k + |r|..] == l[|r|..];
  }

  /** The normalisation applied to a requested target type:
      `t.lower().strip()`. */
  function Normalise(t: string): (r: string)
    ensures NoUpper(r)
    ensures r == [] || (!IsSpace(r[0]) && !IsSpace(r[|r| - 1]))
  {
    var l := ToLower(t);
    var r := Strip(l);
    NoUpperSlice(l, StripStart(l), StripStart(l) + |r|);
    r
  }

  lemma NoUpperSlice(s: string, i: nat, j: nat)
    requires i <= j <= |s| && NoUpper(s)
    ensures NoUpper(s[i..j])
  {
    assert forall k :: 0 <= k < j - i ==> s[i..j][k] == s[i + k];
  }

  lemma ToLowerConcat(a: string, b: string)
    ensures ToLower(a + b) == ToLower(a) + ToLower(b)
  {
    var x, y := ToLower(a + b), ToLower(a) + ToLower(b);
    assert forall i :: 0 <= i < |x| ==> x[i] == y[i] by {
      forall i | 0 <= i < |x| ensures x[i] == y[i] {
        if i < |a| { assert (a + b)[i] == a[i]; } else { assert (a + b)[i] == b[i - |a|]; }
      }
    }
  }

  /** Lower-casing leaves whitespace alone. */
  lemma ToLowerKeepsSpace(w: string)
    requires AllSpace(w)
    ensures ToLower(w) == w
  {
    forall i | 0 <= i < |w|
      ensures ToLower(w)[i] == w[i]
    {
      assert IsSpace(w[i]);
    }
  }

  /** Stripping removes exactly the whitespace padding around a core that
      neither starts nor ends with whitespace. */
  lemma TrimLeftPadding(lead: string, rest: string)
    requires AllSpace(lead)
    requires rest == [] || !IsSpace(rest[0])
    ensures TrimLeft(lead + rest) == rest
  {
    var s := lead + rest;
    var l := TrimLeft(s);
    assert s[..|lead|] == lead && s[|lead|..] == rest;
    assert l == s[|lead|..];
  }

  lemma TrimRightPadding(rest: string, trail: string)
    requires AllSpace(trail)
    requires rest == [] || !IsSpace(rest[|rest| - 1])
    ensures TrimRight(rest + trail) == rest
  {
    var s := rest + trail;
    var r := TrimRight(s);
    assert s[..|rest|] == rest && s[|rest|..] == trail;
    assert r == s[..|rest|];
  }

  /** Stripping removes exactly the whitespace padding around a core that
      neither starts nor ends with whitespace. */
  lemma StripPadding(lead: string, core: string, trail: string)
    requires AllSpace(lead) && AllSpace(trail)
    requires core == [] || (!IsSpace(core[0]) && !IsSpace(core[|core| - 1]))
    ensures Strip(lead + core + trail) == core
  {
    if core == [] {
      assert lead + core + trail == (lead + trail) + [];
      TrimLeftPadding(lead + trail, []);
    } else {
      assert lead + core + trail == lead + (core + trail);
      TrimLeftPadding(lead, core + trail);
      TrimRightPadding(core, trail);
    }
  }

  /** A target type is accepted in any casing and with any whitespace padding:
      padding and case are normalised away. */
  lemma NormalisePadded(lead: string, word: string, trail: string)
    requires AllSpace(lead) && AllSpace(trail)
    requires var w := ToLower(word); w == [] || (!IsSpace(w[0]) && !IsSpace(w[|w| - 1]))
    ensures Normalise(lead + word + trail) == ToLower(word)
  {
    var s := lead + word + trail;
    ToLowerKeepsSpace(lead);
    ToLowerKeepsSpace(trail);
    ToLowerConcat(lead, word);
    ToLowerConcat(lead + word, trail);
    StripPadding(lead, ToLower(word), trail);
  }

  /** Normalising twice is the same as normalising once, so the value an
      invalid-type error carries is itself in normal form. */
  lemma NormaliseIdempotent(t: string)
    ensures Normalise(Normalise(t)) == Normalise(t)
  {
    var n := Normalise(t);
    assert ToLower(n) == n;
    StripPadding([], n, []);
    assert [] + n + [] == n;
  }

  // ---------------------------------------------------------------- str(int)

  predicate IsDigit(c: char) {
    '0' <= c <= '9'
  }

  predicate AllDigits(s: string) {
    forall i :: 0 <= i < |s| ==> IsDigit(s[i])
  }

  function DigitChar(d: nat): (c: char)
    requires d < 10
    ensures IsDigit(c) && c as int - '0' as int == d
  {
    ('0' as int + d) as char
  }

  /** `str(n)` for a natural number: its decimal digits, most significant
      first, with a leading zero only for zero itself. */
  function NatToString(n: nat): (s: string)
    ensures |s| >= 1 && AllDigits(s)
    ensures s[0] == '0' ==> n == 0
    decreases n
  {
    if n < 10 then [DigitChar(n)] else NatToString(n / 10) + [DigitChar(n % 10)]
  }

  /** The number a string of decimal digits denotes (`int(s)`). */
  function DecimalValue(s: string): nat
    requires AllDigits(s)
  {
    if s == [] then 0 else DecimalValue(s[..|s| - 1]) * 10 + (s[|s| - 1] as int - '0' as int)
  }

  lemma {:induction false} DecimalValueOfNatToString(n: nat)
    ensures DecimalValue(NatToString(n)) == n
    decreases n
  {
    if n >= 10 {
      var s := NatToString(n);
      assert s[..|s| - 1] == NatToString(n / 10);
      DecimalValueOfNatToString(n / 10);
    }
  }

  /** Different page numbers give different decimal strings. */
  lemma NatToStringInjective(m: nat, n: nat)
    requires NatToString(m) == NatToString(n)
    ensures m == n
  {
    DecimalValueOfNatToString(m);
    DecimalValueOfNatToString(n);
  }
}
