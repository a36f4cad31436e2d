/**
 * Digits and numerals as JavaScript writes and reads them for non-negative
 * integers: `Number.prototype.toString(radix)`, `Number.parseInt(s, radix)`
 * and `String.prototype.padStart`.
 */
module NumberText {

  /** A hexadecimal digit of either case (what `[a-f\d]` matches under the `i` flag). */
  predicate IsHexDigit(c: char) {
    ('0' <= c <= '9') || ('a' <= c <= 'f') || ('A' <= c <= 'F')
  }

  predicate AllHexDigits(s: string) {
    forall i :: 0 <= i < |s| ==> IsHexDigit(s[i])
  }

  /** A digit as `toString(radix)` writes it: lower case. */
  predicate IsLowerHexDigit(c: char) {
    ('0' <= c <= '9') || ('a' <= c <= 'f')
  }

  function HexValue(c: char): (v: nat)
    requires IsHexDigit(c)
    ensures v < 16
    ensures ('0' <= c <= '9') <==> v < 10
  {
    if '0' <= c <= '9' then c as int - '0' as int
    else if 'a' <= c <= 'f' then c as int - 'a' as int + 10
    else c as int - 'A' as int + 10
  }

  /** The lower-case character for digit value `d`. */
  function DigitChar(d: nat): (c: char)
    requires d < 16
    ensures IsLowerHexDigit(c) && IsHexDigit(c)
    ensures HexValue(c) == d
  {
    if d < 10 then ('0' as int + d) as char else ('a' as int + d - 10) as char
  }

  /** Case folding of one hex digit onto the form `toString(16)` emits. */
  function LowerHexDigit(c: char): (l: char)
    requires IsHexDigit(c)
    ensures IsLowerHexDigit(l) && HexValue(l) == HexValue(c)
    ensures IsLowerHexDigit(c) ==> l == c
  {
    DigitChar(HexValue(c))
  }

  predicate DigitsBelow(s: string, radix: nat) {
    forall i :: 0 <= i < |s| ==> IsHexDigit(s[i]) && HexValue(s[i]) < radix
  }

  /** Euclidean division facts for a positive radix, kept out of the recursive proofs. */
  lemma DivModRadix(n: nat, radix: nat)
    requires 2 <= radix <= 16
    ensures n % radix < radix
    ensures n == (n / radix) * radix + n % radix
    ensures n >= radix ==> 1 <= n / radix < n
  {
  }

  /** `n.toString(radix)` for a non-negative integer `n`: no leading zeros, lower case. */
  function ToRadix(n: nat, radix: nat): (s: string)
    requires 2 <= radix <= 16
    ensures |s| >= 1 && DigitsBelow(s, radix)
    ensures forall i :: 0 <= i < |s| ==> IsLowerHexDigit(s[i])
    ensures |s| > 1 ==> s[0] != '0'
    decreases n
  {
    if n < radix then [DigitChar(n)]
    else
      DivModRadix(n, radix);
      ToRadix(n / radix, radix) + [DigitChar(n % radix)]
  }

  /** The value of a numeral whose every character is a digit below `radix`. */
  function ParseRadix(s: string, radix: nat): nat
    requires 2 <= radix <= 16
    requires DigitsBelow(s, radix)
  {
    if s == [] then 0
    else ParseRadix(s[..|s| - 1], radix) * radix + HexValue(s[|s| - 1])
  }

  /** Reading back what `toString(radix)` wrote gives the number. */
  lemma {:induction false} ParseToRadix(n: nat, radix: nat)
    requires 2 <= radix <= 16
    ensures ParseRadix(ToRadix(n, radix), radix) == n
  {
    var s := ToRadix(n, radix);
    if n >= radix {
      DivModRadix(n, radix);
      ParseToRadix(n / radix, radix);
      assert s[..|s| - 1] == ToRadix(n / radix, radix);
    }
  }

  /** The value of a two-digit hexadecimal numeral lies in [0, 255]. */
  lemma TwoHexDigitsBound(a: char, b: char)
    requires IsHexDigit(a) && IsHexDigit(b)
    ensures ParseRadix([a, b], 16) == HexValue(a) * 16 + HexValue(b) <= 255
  {
    assert [a, b][..1] == [a];
    assert [a][..0] == [];
    assert ParseRadix([a], 16) == HexValue(a);
  }

  /** `s.padStart(len, fill)` with a one-character fill string. */
  function PadStart(s: string, len: nat, fill: char): (r: string)
    ensures |r| == if |s| >= len then |s| else len
    ensures r[|r| - |s|..] == s
    ensures forall i :: 0 <= i < |r| - |s| ==> r[i] == fill
    decreases len - |s|
  {
    if |s| >= len then s else PadStart([fill] + s, len, fill)
  }

  /** `n.toString(16).padStart(2, '0')` is the two lower-case digits of a byte. */
  lemma {:induction false} ByteHex(n: nat)
    requires n <= 255
    ensures PadStart(ToRadix(n, 16), 2, '0') == [DigitChar(n / 16), DigitChar(n % 16)]
  {
    if n >= 16 {
      assert ToRadix(n / 16, 16) == [DigitChar(n / 16)];
    } else {
      assert PadStart(ToRadix(n, 16), 2, '0') == PadStart(['0', DigitChar(n)], 2, '0');
    }
  }
}
