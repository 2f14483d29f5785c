/** Decimal numerals as text, and the byte order of strings. */
module Decimal {
  predicate IsDigit(c: char) {
    '0' <= c <= '9'
  }

  function Digit(d: nat): char
    requires d < 10
  {
    '0' + d as char
  }

  function Value(c: char): nat
    requires IsDigit(c)
  {
    c as int - '0' as int
  }

  predicate AllDigits(s: string) {
    forall c :: c in s ==> IsDigit(c)
  }

  /** The number a run of digits reads as. */
  function Number(s: string): nat
    requires AllDigits(s)
  {
    if |s| == 0 then 0 else Number(s[..|s| - 1]) * 10 + Value(s[|s| - 1])
  }

  /** A number without leading zeros. */
  function Numeral(n: nat): string {
    if n < 10 then [Digit(n)] else Numeral(n / 10) + [Digit(n % 10)]
  }

  lemma {:induction false} NumeralReadsBack(n: nat)
    ensures AllDigits(Numeral(n)) && |Numeral(n)| > 0 && Number(Numeral(n)) == n
  {
    if n >= 10 {
      NumeralReadsBack(n / 10);
      assert Numeral(n)[..|Numeral(n)| - 1] == Numeral(n / 10);
    }
  }

  function Pow10(width: nat): nat {
    if width == 0 then 1 else 10 * Pow10(width - 1)
  }

  /** A number in exactly this many digits. */
  function Pad(n: nat, width: nat): (s: string)
    ensures |s| == width
  {
    if width == 0 then "" else Pad(n / 10, width - 1) + [Digit(n % 10)]
  }

  lemma {:induction false} PadReadsBack(n: nat, width: nat)
    requires n < Pow10(width)
    ensures AllDigits(Pad(n, width)) && Number(Pad(n, width)) == n
  {
    if width > 0 {
      PadReadsBack(n / 10, width - 1);
      assert Pad(n, width)[..width - 1] == Pad(n / 10, width - 1);
    }
  }

  /** A run of digits is its number, padded to its length. */
  lemma {:induction false} DigitsArePadded(s: string)
    requires AllDigits(s)
    ensures Number(s) < Pow10(|s|) && Pad(Number(s), |s|) == s
  {
    if |s| > 0 {
      var m := |s| - 1;
      assert s[m] in s && AllDigits(s[..m]);
      DigitsArePadded(s[..m]);
      assert Number(s) / 10 == Number(s[..m]) && Number(s) % 10 == Value(s[m]);
      assert Digit(Value(s[m])) == s[m];
    }
  }

  /** a <= b for strings, byte by byte. */
  predicate TextLe(a: string, b: string) {
    |a| == 0 || (|b| > 0 && (a[0] < b[0] || (a[0] == b[0] && TextLe(a[1..], b[1..]))))
  }

  /** Strings with heads of equal length compare by their heads first. */
  lemma {:induction false} HeadsCompareFirst(a: string, b: string, a': string, b': string)
    requires |a| == |b|
    ensures TextLe(a + a', b + b') <==> if a == b then TextLe(a', b') else TextLe(a, b)
    decreases |a|
  {
    if |a| == 0 {
      assert a + a' == a' && b + b' == b';
    } else {
      assert (a + a')[1..] == a[1..] + a' && (b + b')[1..] == b[1..] + b';
      HeadsCompareFirst(a[1..], b[1..], a', b');
      assert a == [a[0]] + a[1..] && b == [b[0]] + b[1..];
    }
  }

  /** Zero-padded numerals of one width compare like the numbers. */
  lemma {:induction false} PaddedCompareAsNumbers(m: nat, n: nat, width: nat)
    requires m < Pow10(width) && n < Pow10(width)
    ensures TextLe(Pad(m, width), Pad(n, width)) <==> m <= n
    ensures Pad(m, width) == Pad(n, width) <==> m == n
  {
    PadReadsBack(m, width);
    PadReadsBack(n, width);
    if width > 0 {
      PaddedCompareAsNumbers(m / 10, n / 10, width - 1);
      HeadsCompareFirst(Pad(m / 10, width - 1), Pad(n / 10, width - 1), [Digit(m % 10)], [Digit(n % 10)]);
    }
  }
}
