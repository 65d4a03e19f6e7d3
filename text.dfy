/**
 * The handful of Python string operations the core relies on:
 * `str.lower`, `str.upper`, `str.strip`, `str.endswith`, the `in`
 * substring test, and `str` of a non-negative integer.
 */
module Text {

  // ---------------------------------------------------------------- case

  predicate IsUpperAscii(c: char) { 'A' <= c <= 'Z' }

  predicate IsLowerAscii(c: char) { 'a' <= c <= 'z' }

  function LowerChar(c: char): char
  {
    if IsUpperAscii(c) then (c as int + 32) as char else c
  }

  function UpperChar(c: char): char
  {
    if IsLowerAscii(c) then (c as int - 32) as char else c
  }

  /** A string in which `Lower` changes nothing. */
  predicate NoUpperAscii(s: string)
  {
    forall i :: 0 <= i < |s| ==> !IsUpperAscii(s[i])
  }

  /** A string in which `Upper` changes nothing. */
  predicate NoLowerAscii(s: string)
  {
    forall i :: 0 <= i < |s| ==> !IsLowerAscii(s[i])
  }

  /** `s.lower()`, restricted to the ASCII letters. */
  function Lower(s: string): (r: string)
    ensures |r| == |s|
  {
    seq(|s|, i requires 0 <= i < |s| => LowerChar(s[i]))
  }

  /**
   * What `Lower` does: every upper-case letter becomes its lower-case
   * partner (32 code points on), so no upper-case letter is left, and every
   * other character is kept.
   */
  lemma LowerCharacterised(s: string)
    ensures NoUpperAscii(Lower(s))
    ensures forall i :: 0 <= i < |s| && IsUpperAscii(s[i]) ==>
              IsLowerAscii(Lower(s)[i]) && Lower(s)[i] as int == s[i] as int + 32
    ensures forall i :: 0 <= i < |s| && !IsUpperAscii(s[i]) ==> Lower(s)[i] == s[i]
  {
  }

  /**
   * `s.upper()`, restricted to the ASCII letters: no lower-case letter is
   * left, every other character is kept, and only the case changes (both
   * strings lower-case alike).
   */
  function Upper(s: string): (r: string)
    ensures |r| == |s|
    ensures NoLowerAscii(r)
    ensures forall i {:trigger r[i]} :: 0 <= i < |s| && !IsLowerAscii(s[i]) ==> r[i] == s[i]
    ensures Lower(r) == Lower(s)
  {
    var r := seq(|s|, i requires 0 <= i < |s| => UpperChar(s[i]));
    assert forall i :: 0 <= i < |s| ==> LowerChar(r[i]) == LowerChar(s[i]);
    r
  }

  lemma LowerOfLowercase(s: string)
    requires NoUpperAscii(s)
    ensures Lower(s) == s
  {
  }

  /** Lower-casing commutes with taking a slice. */
  lemma LowerSlice(s: string, i: nat, j: nat)
    requires i <= j <= |s|
    ensures Lower(s)[i..j] == Lower(s[i..j])
  {
  }

  // ----------------------------------------------------------- substrings

  /** `s.endswith(suffix)`. */
  predicate EndsWith(s: string, suffix: string)
  {
    |suffix| <= |s| && s[|s| - |suffix|..] == suffix
  }

  /** `t` occurs in `s` starting at position `i`. */
  predicate OccursAt(s: string, t: string, i: int)
  {
    0 <= i <= |s| - |t| && s[i..i + |t|] == t
  }

  /** `t in s`: `t` occurs in `s` at some position. */
  predicate Contains(s: string, t: string)
  {
    exists i | 0 <= i <= |s| - |t| :: OccursAt(s, t, i)
  }

  /** `s.endswith(suffixes)` for a tuple of suffixes. */
  function EndsWithAny(s: string, suffixes: seq<string>): (b: bool)
    ensures b <==> exists k :: 0 <= k < |suffixes| && EndsWith(s, suffixes[k])
  {
    if suffixes == [] then false
    else EndsWith(s, suffixes[0]) || EndsWithAny(s, suffixes[1..])
  }

  /** `any(t in s for t in tokens)`. */
  function ContainsAny(s: string, tokens: seq<string>): (b: bool)
    ensures b <==> exists k :: 0 <= k < |tokens| && Contains(s, tokens[k])
  {
    if tokens == [] then false
    else Contains(s, tokens[0]) || ContainsAny(s, tokens[1..])
  }

  /** An occurrence of an all-lower-case `t` survives lower-casing `s`. */
  lemma ContainsLower(s: string, t: string)
    requires NoUpperAscii(t)
    requires Contains(s, t)
    ensures Contains(Lower(s), t)
  {
    var i :| 0 <= i <= |s| - |t| && OccursAt(s, t, i);
    LowerSlice(s, i, i + |t|);
    LowerOfLowercase(t);
    assert OccursAt(Lower(s), t, i);
  }

  /** An occurrence in a slice of `s` is an occurrence in `s`. */
  lemma ContainsOfSlice(s: string, a: nat, b: nat, t: string)
    requires a <= b <= |s|
    requires Contains(s[a..b], t)
    ensures Contains(s, t)
  {
    var i :| 0 <= i <= (b - a) - |t| && OccursAt(s[a..b], t, i);
    assert a + i + |t| <= b;
    var inner, outer := s[a..b][i..i + |t|], s[a + i..a + i + |t|];
    assert forall j :: 0 <= j < |t| ==> inner[j] == outer[j];
    assert outer == inner;
    assert OccursAt(s, t, a + i);
  }

  /** Some token occurring in a slice of `s` occurs in `s`. */
  lemma ContainsAnyOfSlice(s: string, a: nat, b: nat, tokens: seq<string>)
    requires a <= b <= |s|
    requires ContainsAny(s[a..b], tokens)
    ensures ContainsAny(s, tokens)
  {
    var k :| 0 <= k < |tokens| && Contains(s[a..b], tokens[k]);
    ContainsOfSlice(s, a, b, tokens[k]);
  }

  /** A suffix test on a lower-cased string implies the substring test. */
  lemma EndsWithContains(s: string, t: string)
    requires EndsWith(s, t)
    ensures Contains(s, t)
  {
    assert OccursAt(s, t, |s| - |t|);
  }

  /** `t` cannot occur in `s` when one of its characters never appears in `s`. */
  lemma AbsentCharNotContained(s: string, t: string, j: nat)
    requires j < |t|
    requires forall i :: 0 <= i < |s| ==> s[i] != t[j]
    ensures !Contains(s, t)
  {
    forall i | 0 <= i <= |s| - |t| ensures !OccursAt(s, t, i) {
      assert s[i..i + |t|][j] == s[i + j];
    }
  }

  // --------------------------------------------------------------- strip

  /**
   * The characters Python's `str.isspace` accepts, which are exactly the
   * ones `str.strip()` with no argument removes.
   */
  predicate IsSpace(c: char)
  {
    var n := c as int;
    (0x09 <= n <= 0x0D) || (0x1C <= n <= 0x20) || n == 0x85 || n == 0xA0
    || n == 0x1680 || (0x2000 <= n <= 0x200A) || n == 0x2028 || n == 0x2029
    || n == 0x202F || n == 0x205F || n == 0x3000
  }

  predicate AllSpace(s: string)
  {
    forall i :: 0 <= i < |s| ==> IsSpace(s[i])
  }

  /** The length of the longest all-whitespace prefix of `s`. */
  function LeadingSpace(s: string): (k: nat)
    ensures k <= |s|
    ensures AllSpace(s[..k])
    ensures k < |s| ==> !IsSpace(s[k])
  {
    if |s| > 0 && IsSpace(s[0]) then
      var k := 1 + LeadingSpace(s[1..]);
      assert s[..k] == [s[0]] + s[1..][..k - 1];
      k
    else 0
  }

  /** The length of the longest all-whitespace suffix of `s`. */
  function TrailingSpace(s: string): (k: nat)
    ensures k <= |s|
    ensures AllSpace(s[|s| - k..])
    ensures k < |s| ==> !IsSpace(s[|s| - 1 - k])
  {
    if |s| > 0 && IsSpace(s[|s| - 1]) then
      var rest := s[..|s| - 1];
      var k := 1 + TrailingSpace(rest);
      assert s[|s| - k..] == rest[|rest| - (k - 1)..] + [s[|s| - 1]];
      k
    else 0
  }

  /**
   * `s.strip()`: `s` with its leading and trailing whitespace removed.
   * The result is the slice of `s` that starts after the leading
   * whitespace, and it neither starts nor ends with whitespace.
   */
  function Strip(s: string): (r: string)
    ensures LeadingSpace(s) + |r| <= |s|
    ensures r == [] || (!IsSpace(r[0]) && !IsSpace(r[|r| - 1]))
    ensures r == s[LeadingSpace(s)..LeadingSpace(s) + |r|]
    ensures AllSpace(s[LeadingSpace(s) + |r|..])
  {
    var a := LeadingSpace(s);
    var rest := s[a..];
    var b := TrailingSpace(rest);
    assert rest[|rest| - b..] == s[a + (|rest| - b)..];
    rest[..|rest| - b]
  }

  /** Whatever `Strip` removes is whitespace, on both sides. */
  lemma StripSplits(s: string)
    ensures var a := LeadingSpace(s);
            var r := Strip(s);
            s == s[..a] + r + s[a + |r|..] && AllSpace(s[..a]) && AllSpace(s[a + |r|..])
  {
    var a := LeadingSpace(s);
    var r := Strip(s);
    assert s == s[..a] + s[a..a + |r|] + s[a + |r|..];
  }

  lemma {:induction false} LeadingSpaceOfNonSpace(s: string)
    requires s == [] || !IsSpace(s[0])
    ensures LeadingSpace(s) == 0
  {
  }

  lemma {:induction false} TrailingSpaceOfNonSpace(s: string)
    requires s == [] || !IsSpace(s[|s| - 1])
    ensures TrailingSpace(s) == 0
  {
  }

  /** Stripping twice is stripping once. */
  lemma StripIdempotent(s: string)
    ensures Strip(Strip(s)) == Strip(s)
  {
    var r := Strip(s);
    LeadingSpaceOfNonSpace(r);
    TrailingSpaceOfNonSpace(r);
    assert r[0..] == r;
  }

  // ------------------------------------------------------------ decimals

  predicate IsDigit(c: char) { '0' <= c <= '9' }

  function DigitValue(c: char): nat
    requires IsDigit(c)
  {
    c as int - '0' as int
  }

  function DigitChar(d: nat): (c: char)
    requires d < 10
    ensures IsDigit(c) && DigitValue(c) == d
  {
    ('0' as int + d) as char
  }

  /** `str(n)` for a non-negative integer: its decimal digits, no leading zero. */
  function DecimalString(n: nat): (r: string)
    ensures 1 <= |r|
    ensures forall i :: 0 <= i < |r| ==> IsDigit(r[i])
    ensures r[0] == '0' ==> n == 0
    decreases n
  {
    if n < 10 then [DigitChar(n)] else DecimalString(n / 10) + [DigitChar(n % 10)]
  }

  /** The value of a string of decimal digits (the inverse of `DecimalString`). */
  function DecimalValue(s: string): nat
    requires forall i :: 0 <= i < |s| ==> IsDigit(s[i])
  {
    if s == [] then 0
    else DecimalValue(s[..|s| - 1]) * 10 + DigitValue(s[|s| - 1])
  }

  lemma {:induction false} DecimalRoundTrip(n: nat)
    ensures DecimalValue(DecimalString(n)) == n
    decreases n
  {
    var r := DecimalString(n);
    if n >= 10 {
      DecimalRoundTrip(n / 10);
      assert r[..|r| - 1] == DecimalString(n / 10);
    }
  }

  /** Distinct numbers print differently. */
  lemma DecimalInjective(m: nat, n: nat)
    requires DecimalString(m) == DecimalString(n)
    ensures m == n
  {
    DecimalRoundTrip(m);
    DecimalRoundTrip(n);
  }
}
