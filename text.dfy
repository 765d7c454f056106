/**
 * The string handling the game applies to what the player types and to the
 * number it commits to: Python's str.strip(), str.isdigit(), int() on a digit
 * string, str() of a non-negative int, and str.encode() of an ASCII string.
 * Characters are taken as ASCII; Unicode whitespace and Unicode digits beyond
 * ASCII are not modelled.
 */
module Text {

  newtype byte = x: int | 0 <= x < 256

  /** The ASCII characters that Python's str.isspace() accepts. */
  predicate IsSpace(c: char) {
    var k := c as int;
    k == 32 || 9 <= k <= 13 || 28 <= k <= 31
  }

  /** Drops leading whitespace. */
  function TrimStart(s: string): (r: string)
    ensures |r| <= |s|
    ensures r == [] || !IsSpace(r[0])
  {
    if s != [] && IsSpace(s[0]) then TrimStart(s[1..]) else s
  }

  /** Drops trailing whitespace. */
  function TrimEnd(s: string): (r: string)
    ensures |r| <= |s|
    ensures r == [] || (r[0] == s[0] && !IsSpace(r[|r| - 1]))
  {
    if s != [] && IsSpace(s[|s| - 1]) then TrimEnd(s[..|s| - 1]) else s
  }

  /** Python's s.strip() with no argument. */
  function Strip(s: string): (r: string)
    ensures |r| <= |s|
    ensures r == [] || (!IsSpace(r[0]) && !IsSpace(r[|r| - 1]))
  {
    TrimEnd(TrimStart(s))
  }

  /** What TrimStart keeps is a suffix of s, and what it drops is whitespace. */
  lemma {:induction false} TrimStartSuffix(s: string)
    ensures TrimStart(s) == s[|s| - |TrimStart(s)|..]
    ensures forall k :: 0 <= k < |s| - |TrimStart(s)| ==> IsSpace(s[k])
  {
    if s != [] && IsSpace(s[0]) {
      TrimStartSuffix(s[1..]);
      forall k | 1 <= k < |s| - |TrimStart(s)| ensures IsSpace(s[k]) {
        assert s[k] == s[1..][k - 1];
      }
    }
  }

  /** What TrimEnd keeps is a prefix of s, and what it drops is whitespace. */
  lemma {:induction false} TrimEndPrefix(s: string)
    ensures TrimEnd(s) == s[..|TrimEnd(s)|]
    ensures forall k :: |TrimEnd(s)| <= k < |s| ==> IsSpace(s[k])
  {
    if s != [] && IsSpace(s[|s| - 1]) {
      TrimEndPrefix(s[..|s| - 1]);
      forall k | |TrimEnd(s)| <= k < |s| - 1 ensures IsSpace(s[k]) {
        assert s[k] == s[..|s| - 1][k];
      }
    }
  }

  /**
   * strip() removes whitespace at the two ends and nothing else: the result
   * is a slice of s, and everything outside that slice is whitespace.
   */
  lemma StripSpan(s: string)
    ensures exists i, j :: 0 <= i <= j <= |s| && Strip(s) == s[i..j]
                           && (forall k :: 0 <= k < i ==> IsSpace(s[k]))
                           && (forall k :: j <= k < |s| ==> IsSpace(s[k]))
  {
    var t := TrimStart(s);
    var r := TrimEnd(t);
    var i := |s| - |t|;
    TrimStartSuffix(s);
    TrimEndPrefix(t);
    PrefixOfSuffix(s, t, r, i);
    SpaceAfterPrefix(s, t, r, i);
    assert Strip(s) == s[i..i + |r|];
  }

  /** A prefix r of the suffix s[i..] is the slice s[i..i + |r|]. */
  lemma PrefixOfSuffix(s: string, t: string, r: string, i: nat)
    requires i <= |s| && t == s[i..] && |r| <= |t| && r == t[..|r|]
    ensures i + |r| <= |s| && r == s[i..i + |r|]
  {
    assert s[i..i + |r|] == s[i..][..|r|];
  }

  /** Whitespace after a prefix r of s[i..] is whitespace of s after i + |r|. */
  lemma SpaceAfterPrefix(s: string, t: string, r: string, i: nat)
    requires i <= |s| && t == s[i..] && |r| <= |t|
    requires forall k :: |r| <= k < |t| ==> IsSpace(t[k])
    ensures forall k :: i + |r| <= k < |s| ==> IsSpace(s[k])
  {
    forall k | i + |r| <= k < |s| ensures IsSpace(s[k]) {
      assert s[k] == t[k - i];
    }
  }

  /** A string that neither starts nor ends with whitespace is left alone by strip(). */
  lemma StripKeeps(s: string)
    requires s == [] || (!IsSpace(s[0]) && !IsSpace(s[|s| - 1]))
    ensures Strip(s) == s
  {
  }

  predicate IsDigit(c: char) {
    '0' <= c <= '9'
  }

  predicate AllDigits(s: string) {
    forall i :: 0 <= i < |s| ==> IsDigit(s[i])
  }

  /** Python's s.isdigit() on ASCII: non-empty and made of digits only. */
  predicate IsDigits(s: string) {
    |s| > 0 && AllDigits(s)
  }

  function DigitValue(c: char): (d: nat)
    requires IsDigit(c)
    ensures d < 10
  {
    c as int - '0' as int
  }

  function DigitChar(d: nat): (c: char)
    requires d < 10
    ensures IsDigit(c) && DigitValue(c) == d
  {
    ('0' as int + d) as char
  }

  /** Python's int(s) on a string of ASCII digits (leading zeros allowed). */
  function DecimalValue(s: string): nat
    requires AllDigits(s)
  {
    if s == [] then 0 else 10 * DecimalValue(s[..|s| - 1]) + DigitValue(s[|s| - 1])
  }

  /** Python's str(n) for n >= 0: digits only, and no leading zero unless n is 0. */
  function NatToDecimal(n: nat): (r: string)
    ensures IsDigits(r)
    ensures r[0] == '0' <==> n == 0
  {
    if n < 10 then [DigitChar(n)] else NatToDecimal(n / 10) + [DigitChar(n % 10)]
  }

  /** int(str(n)) == n. */
  lemma {:induction false} DecimalRoundTrip(n: nat)
    ensures DecimalValue(NatToDecimal(n)) == n
  {
    var r := NatToDecimal(n);
    if n >= 10 {
      DecimalRoundTrip(n / 10);
      assert r[..|r| - 1] == NatToDecimal(n / 10);
    }
  }

  /** str is injective on non-negative ints, so the text fixes the number. */
  lemma NatToDecimalInjective(m: nat, n: nat)
    requires NatToDecimal(m) == NatToDecimal(n)
    ensures m == n
  {
    DecimalRoundTrip(m);
    DecimalRoundTrip(n);
  }

  /** str(int(s)) == s for a digit string without a leading zero. */
  lemma {:induction false} DecimalCanonical(s: string)
    requires IsDigits(s) && (s[0] == '0' ==> |s| == 1)
    ensures NatToDecimal(DecimalValue(s)) == s
  {
    var n := DecimalValue(s);
    if |s| > 1 {
      var p := s[..|s| - 1];
      DecimalCanonical(p);
      DecimalPositive(p);
      assert n / 10 == DecimalValue(p) && n % 10 == DigitValue(s[|s| - 1]);
    }
  }

  lemma {:induction false} DecimalPositive(s: string)
    requires IsDigits(s) && s[0] != '0'
    ensures DecimalValue(s) > 0
  {
    if |s| > 1 {
      DecimalPositive(s[..|s| - 1]);
    }
  }

  predicate IsAscii(s: string) {
    forall i :: 0 <= i < |s| ==> s[i] as int < 128
  }

  /** str.encode() of an ASCII string: UTF-8 gives one byte per character. */
  function Encode(s: string): (r: seq<byte>)
    requires IsAscii(s)
    ensures |r| == |s| && forall i :: 0 <= i < |s| ==> r[i] as int == s[i] as int
  {
    if s == [] then [] else [s[0] as int as byte] + Encode(s[1..])
  }

  lemma EncodeInjective(s: string, t: string)
    requires IsAscii(s) && IsAscii(t)
    requires Encode(s) == Encode(t)
    ensures s == t
  {
    assert |s| == |t|;
    forall i | 0 <= i < |s| ensures s[i] == t[i] {
      assert Encode(s)[i] == Encode(t)[i];
    }
  }
}
