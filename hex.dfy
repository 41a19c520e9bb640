/**
 * Hexadecimal rendering of a sprite tint, as JavaScript's
 * `Number.prototype.toString(16)` followed by `padStart(6, '0')` produce it
 * for a non-negative integer.
 */
module Hex {

  predicate IsHexDigit(c: char) {
    '0' <= c <= '9' || 'a' <= c <= 'f'
  }

  /** The lower-case digit for a value below 16. */
  function DigitChar(d: nat): (c: char)
    requires d < 16
    ensures IsHexDigit(c)
  {
    if d < 10 then ('0' as int + d) as char else ('a' as int + d - 10) as char
  }

  predicate AllHexDigits(s: string) {
    forall i :: 0 <= i < |s| ==> IsHexDigit(s[i])
  }

  /** The numeric value of one lower-case hexadecimal digit. */
  function DigitValue(c: char): (d: nat)
    requires IsHexDigit(c)
    ensures d < 16 && DigitChar(d) == c
  {
    if '0' <= c <= '9' then (c - '0') as nat else (c - 'a') as nat + 10
  }

  /** The shortest lower-case base-16 text of `n`; zero is "0". */
  function ToHex(n: nat): (s: string)
    decreases n
  {
    if n < 16 then [DigitChar(n)] else ToHex(n / 16) + [DigitChar(n % 16)]
  }

  /** The number a string of hexadecimal digits denotes (most significant first). */
  function Value(s: string): nat
    requires AllHexDigits(s)
  {
    if s == [] then 0 else Value(s[..|s| - 1]) * 16 + DigitValue(s[|s| - 1])
  }

  function Power16(k: nat): (p: nat)
    ensures 1 <= p
  {
    if k == 0 then 1 else 16 * Power16(k - 1)
  }

  /** Left-pads `s` with `fill` up to `width` characters; longer strings are kept whole. */
  function PadStart(s: string, width: nat, fill: char): string
    decreases width - |s|
  {
    if |s| < width then PadStart([fill] + s, width, fill) else s
  }

  /** ToHex writes at least one digit and nothing but lower-case digits. */
  lemma {:induction false} ToHexDigits(n: nat)
    ensures 1 <= |ToHex(n)| && AllHexDigits(ToHex(n))
    decreases n
  {
    if n >= 16 {
      ToHexDigits(n / 16);
    }
  }

  /** Reading back the text ToHex writes gives the number again. */
  lemma {:induction false} ValueOfToHex(n: nat)
    ensures AllHexDigits(ToHex(n)) && Value(ToHex(n)) == n
    decreases n
  {
    ToHexDigits(n);
    var s := ToHex(n);
    if n < 16 {
      assert DigitValue(DigitChar(n)) == n;
    } else {
      ValueOfToHex(n / 16);
      assert s[..|s| - 1] == ToHex(n / 16);
      assert DigitValue(DigitChar(n % 16)) == n % 16;
    }
  }

  /** ToHex never writes a leading zero, except for zero itself. */
  lemma {:induction false} ToHexNoLeadingZero(n: nat)
    requires 0 < n
    ensures 1 <= |ToHex(n)| && ToHex(n)[0] != '0'
    decreases n
  {
    ToHexDigits(n);
    if n >= 16 {
      ToHexNoLeadingZero(n / 16);
    }
  }

  /** ToHex uses at most `k` digits exactly when the number is below 16^k. */
  lemma {:induction false} ToHexLength(n: nat, k: nat)
    requires 1 <= k
    ensures |ToHex(n)| <= k <==> n < Power16(k)
    decreases n
  {
    if n < 16 {
      assert 16 <= Power16(k) by {
        if k > 1 { assert Power16(k) == 16 * Power16(k - 1); }
      }
    } else if k == 1 {
    } else {
      ToHexLength(n / 16, k - 1);
    }
  }

  /** The padded text is `width` long (or `s` itself when longer): fill characters, then `s`. */
  lemma {:induction false} PadStartShape(s: string, width: nat, fill: char)
    ensures var r := PadStart(s, width, fill);
      && |r| == (if |s| < width then width else |s|)
      && r[|r| - |s|..] == s
      && forall i :: 0 <= i < |r| - |s| ==> r[i] == fill
    decreases width - |s|
  {
    if |s| < width {
      PadStartShape([fill] + s, width, fill);
      var r := PadStart(s, width, fill);
      assert r[|r| - |s|..] == ([fill] + s)[1..];
    }
  }

  /** Padding with '0' prepends exactly the missing number of zeros. */
  lemma {:induction false} PadStartZeros(s: string, width: nat)
    ensures PadStart(s, width, '0') == Zeros(if |s| < width then width - |s| else 0) + s
    decreases width - |s|
  {
    if |s| < width {
      PadStartZeros(['0'] + s, width);
      var z := width - |s|;
      assert Zeros(z - 1) + (['0'] + s) == Zeros(z) + s by {
        ZerosCons(z - 1);
      }
    } else {
      assert Zeros(0) + s == s;
    }
  }

  /** Leading '0' characters do not change the value of a digit string. */
  lemma {:induction false} ValueIgnoresLeadingZeros(z: nat, s: string)
    requires AllHexDigits(s)
    ensures AllHexDigits(Zeros(z) + s)
    ensures Value(Zeros(z) + s) == Value(s)
    decreases |s|
  {
    var t := Zeros(z) + s;
    assert AllHexDigits(t) by {
      ZerosCons(z);
      forall i | 0 <= i < |t| ensures IsHexDigit(t[i]) {
        if i >= z { assert t[i] == s[i - z]; }
      }
    }
    if s == [] {
      assert t == Zeros(z);
      ZerosValue(z);
    } else {
      var init := s[..|s| - 1];
      ValueIgnoresLeadingZeros(z, init);
      assert t[..|t| - 1] == Zeros(z) + init;
      assert t[|t| - 1] == s[|s| - 1];
    }
  }

  /** `z` zero digits. */
  function Zeros(z: nat): (r: string)
    ensures |r| == z
  {
    if z == 0 then [] else ['0'] + Zeros(z - 1)
  }

  lemma {:induction false} ZerosCons(z: nat)
    ensures Zeros(z) + ['0'] == ['0'] + Zeros(z) && Zeros(z + 1) == ['0'] + Zeros(z)
    ensures forall i :: 0 <= i < z ==> Zeros(z)[i] == '0'
  {
    if z > 0 {
      ZerosCons(z - 1);
      assert Zeros(z) + ['0'] == ['0'] + (Zeros(z - 1) + ['0']);
    }
  }

  lemma {:induction false} ZerosValue(z: nat)
    ensures AllHexDigits(Zeros(z))
    ensures Value(Zeros(z)) == 0
  {
    ZerosCons(z);
    if z > 0 {
      ZerosValue(z - 1);
      ZerosCons(z - 1);
      assert Zeros(z) == Zeros(z - 1) + ['0'];
      assert Zeros(z)[..z - 1] == Zeros(z - 1);
    }
  }

  /**
   * `n.toString(16).padStart(6, '0')`: digits only, reading back as `n`, six
   * long exactly when `n` is below 16^6, and with no padding zero when longer.
   */
  lemma PaddedHex(n: nat)
    ensures var p := PadStart(ToHex(n), 6, '0');
      && |p| >= 6 && AllHexDigits(p) && Value(p) == n
      && (n < Power16(6) <==> |p| == 6)
      && (|p| > 6 && 0 < n ==> p[0] != '0')
  {
    var h := ToHex(n);
    ValueOfToHex(n);
    ToHexLength(n, 6);
    PadStartZeros(h, 6);
    if |h| < 6 {
      ValueIgnoresLeadingZeros(6 - |h|, h);
    } else {
      assert Zeros(0) + h == h;
      if 0 < n { ToHexNoLeadingZero(n); }
    }
  }
}
