/** Hexadecimal text and the number helpers the service imports from its chain
    client: `Number.prototype.toString(16)`, `toHex` (a number as minimal
    lowercase hex text with a `0x` prefix) and `toFelt` (hex text as a number). */
module Hex {

  predicate IsHexDigit(c: char) {
    '0' <= c <= '9' || 'a' <= c <= 'f' || 'A' <= c <= 'F'
  }

  predicate IsLowerHexDigit(c: char) {
    '0' <= c <= '9' || 'a' <= c <= 'f'
  }

  predicate AllHexDigits(d: string) {
    forall k :: 0 <= k < |d| ==> IsHexDigit(d[k])
  }

  predicate AllLowerHexDigits(d: string) {
    forall k :: 0 <= k < |d| ==> IsLowerHexDigit(d[k])
  }

  function Pow(b: nat, e: nat): nat {
    if e == 0 then 1 else b * Pow(b, e - 1)
  }

  /** The value of one hex digit, in either letter case. */
  function DigitValue(c: char): (v: nat)
    requires IsHexDigit(c)
    ensures v < 16
    ensures v == 0 <==> c == '0'
  {
    if '0' <= c <= '9' then c as nat - '0' as nat
    else if 'a' <= c <= 'f' then c as nat - 'a' as nat + 10
    else c as nat - 'A' as nat + 10
  }

  /** The lowercase digit for a value below 16. */
  function Digit(v: nat): (c: char)
    requires v < 16
    ensures IsLowerHexDigit(c) && DigitValue(c) == v
  {
    if v < 10 then ('0' as nat + v) as char else ('a' as nat + v - 10) as char
  }

  lemma DigitOfValue(c: char)
    requires IsLowerHexDigit(c)
    ensures Digit(DigitValue(c)) == c
  {
  }

  /** The big-endian value of a string of hex digits (0 for the empty string). */
  function HexValue(d: string): nat
    requires AllHexDigits(d)
  {
    if d == [] then 0 else HexValue(d[..|d| - 1]) * 16 + DigitValue(d[|d| - 1])
  }

  /** `n.toString(16)`: the minimal lowercase hex digits of n ("0" for zero). */
  function MinimalHex(n: nat): (d: string)
    ensures |d| >= 1 && AllLowerHexDigits(d)
    ensures AllHexDigits(d) && HexValue(d) == n
    ensures n > 0 ==> d[0] != '0'
    decreases n
  {
    if n < 16 then [Digit(n)] else MinimalHex(n / 16) + [Digit(n % 16)]
  }

  /** `toHex(n)`: minimal lowercase hex text with a `0x` prefix. toFelt reads
      it back as n, so toHex is a right inverse of toFelt. */
  function ToHex(n: nat): (t: string)
    ensures |t| >= 3 && IsPrefixedHex(t) && ToFelt(t) == n
  {
    var t := "0x" + MinimalHex(n);
    assert t[..2] == "0x" && t[2..] == MinimalHex(n);
    t
  }

  predicate IsPrefixedHex(t: string) {
    |t| >= 2 && t[..2] == "0x" && AllHexDigits(t[2..])
  }

  /** `toFelt(t)` for `0x`-prefixed hex text: the number it denotes. The
      library renders that number as decimal text; the model keeps the number. */
  function ToFelt(t: string): (f: nat)
    requires IsPrefixedHex(t)
    ensures f < Pow(16, |t| - 2)
  {
    HexValueBound(t[2..]);
    HexValue(t[2..])
  }

  lemma HexValueAppendPair(a: string, x: char, y: char)
    requires AllHexDigits(a) && IsHexDigit(x) && IsHexDigit(y)
    ensures AllHexDigits(a + [x, y])
    ensures HexValue(a + [x, y]) == HexValue(a) * 256 + DigitValue(x) * 16 + DigitValue(y)
  {
    assert (a + [x, y])[..|a| + 1] == a + [x];
    assert (a + [x])[..|a|] == a;
  }

  lemma {:induction false} HexValueBound(d: string)
    requires AllHexDigits(d)
    ensures HexValue(d) < Pow(16, |d|)
  {
    if d != [] {
      HexValueBound(d[..|d| - 1]);
    }
  }

  lemma {:induction false} HexValueZero(d: string)
    requires AllHexDigits(d) && d != [] && d[0] != '0'
    ensures HexValue(d) > 0
  {
    if |d| > 1 {
      HexValueZero(d[..|d| - 1]);
    }
  }

  /** `n.toString(16)` has one digit exactly below 16 and two exactly on 16..255. */
  lemma MinimalHexLength(n: nat)
    ensures |MinimalHex(n)| == 1 <==> n < 16
    ensures |MinimalHex(n)| == 2 <==> 16 <= n < 256
    ensures 16 <= n < 256 ==> MinimalHex(n) == [Digit(n / 16), Digit(n % 16)]
  {
    if n >= 256 {
      assert |MinimalHex(n / 16)| >= 2;
    }
  }

  /** toHex is a left inverse of toFelt on canonical text: nonempty lowercase
      digits with no leading zero (or the single digit "0"). */
  lemma {:induction false} MinimalHexOfValue(d: string)
    requires |d| >= 1 && AllLowerHexDigits(d) && (|d| > 1 ==> d[0] != '0')
    ensures AllHexDigits(d) && MinimalHex(HexValue(d)) == d
  {
    var init, last := d[..|d| - 1], d[|d| - 1];
    DigitOfValue(last);
    if |d| > 1 {
      MinimalHexOfValue(init);
      HexValueZero(init);
      var n := HexValue(d);
      assert n == HexValue(init) * 16 + DigitValue(last);
      assert n / 16 == HexValue(init) && n % 16 == DigitValue(last);
      assert d == init + [last];
    }
  }

  /** Powers of 256 are powers of 2: the 31-character chunk limit is 2^248. */
  lemma {:induction false} PowAdd(b: nat, m: nat, n: nat)
    ensures Pow(b, m + n) == Pow(b, m) * Pow(b, n)
  {
    if m > 0 {
      PowAdd(b, m - 1, n);
    }
  }

  lemma {:induction false} Pow256(n: nat)
    ensures Pow(256, n) == Pow(2, 8 * n)
  {
    if n > 0 {
      Pow256(n - 1);
      PowAdd(2, 8, 8 * (n - 1));
    }
  }

  /** Powers of 16 are powers of 2: 62 hex digits stay below 2^248. */
  lemma {:induction false} Pow16(n: nat)
    ensures Pow(16, n) == Pow(2, 4 * n)
  {
    if n > 0 {
      Pow16(n - 1);
      PowAdd(2, 4, 4 * (n - 1));
    }
  }
}
