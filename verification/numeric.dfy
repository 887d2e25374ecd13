/**
 * Integer helpers shared by every binding of the benchmark: the signed 64-bit
 * range that `int64_t` / `i64` values live in, the truncating division that
 * C++ and Rust apply to signed integers, decimal rendering of indices and
 * ports (`std::to_string`, Rust's `format!("{}")`), and string repetition
 * (Rust's `str::repeat`).
 */
module Numeric {

  const INT64_MIN: int := -0x8000_0000_0000_0000
  const INT64_MAX: int := 0x7FFF_FFFF_FFFF_FFFF

  predicate IsInt64(x: int) {
    INT64_MIN <= x <= INT64_MAX
  }

  const INT32_MIN: int := -0x8000_0000
  const INT32_MAX: int := 0x7FFF_FFFF

  predicate IsInt32(x: int) {
    INT32_MIN <= x <= INT32_MAX
  }

  function Abs(x: int): nat {
    if x < 0 then -x else x
  }

  /** Signed division as C++ and Rust define it: the quotient rounded toward zero. */
  function TruncDiv(a: int, b: int): (q: int)
    requires b != 0
    ensures Abs(q) * Abs(b) <= Abs(a) < (Abs(q) + 1) * Abs(b)
    ensures q != 0 ==> ((q > 0) <==> ((a > 0) == (b > 0)))
  {
    var x, d := Abs(a), Abs(b);
    DivBounds(x, d);
    var m := x / d;
    if (a < 0) == (b < 0) then m else -m
  }

  /** The Euclidean quotient of naturals brackets the dividend. */
  lemma DivBounds(x: nat, d: nat)
    requires d > 0
    ensures x / d >= 0
    ensures (x / d) * d <= x < (x / d + 1) * d
  {
    assert x == d * (x / d) + x % d;
  }

  lemma ModShift(i: nat, n: nat)
    requires n > 0 && i >= n
    ensures (i - n) % n == i % n
  {
    DivBounds(i, n);
    DivBounds(i - n, n);
    assert i == n * (i / n) + i % n;
    assert i - n == n * ((i - n) / n) + (i - n) % n;
    var q := (i - n) / n + 1;
    assert i == n * q + (i - n) % n;
    // the Euclidean decomposition of i is unique
    if (i - n) % n < i % n {
      assert n * q - n * (i / n) == i % n - (i - n) % n;
      UniqueQuotient(i, n, q, (i - n) % n);
    } else if (i - n) % n > i % n {
      UniqueQuotient(i, n, q, (i - n) % n);
    }
  }

  lemma UniqueQuotient(x: nat, n: nat, q: int, r: int)
    requires n > 0 && 0 <= r < n && x == n * q + r
    ensures q == x / n && r == x % n
  {
    var q0, r0 := x / n, x % n;
    assert n * q + r == n * q0 + r0;
    if q < q0 {
      assert n * (q0 - q) == r - r0;
      MulMonotone(n, 1, q0 - q);
    } else if q > q0 {
      assert n * (q - q0) == r0 - r;
      MulMonotone(n, 1, q - q0);
    }
  }

  /** With a non-negative dividend and a positive divisor, truncation and Dafny's division agree. */
  lemma TruncDivOfNonNegative(a: int, b: int)
    requires a >= 0 && b > 0
    ensures TruncDiv(a, b) == a / b
  {
  }

  /** The truncating quotient by a positive divisor is never larger in magnitude than the dividend. */
  lemma TruncDivShrinks(a: int, b: int)
    requires b > 0
    ensures Abs(TruncDiv(a, b)) <= Abs(a)
    ensures IsInt64(a) ==> IsInt64(TruncDiv(a, b))
  {
    var q := TruncDiv(a, b);
    assert Abs(q) * 1 <= Abs(q) * Abs(b) by { MulMonotone(Abs(q), 1, Abs(b)); }
  }

  /** By a positive divisor, the truncating quotient has the dividend's sign, agrees with Euclidean
      division on non-negative dividends and stays in the 64-bit range. */
  lemma TruncDivByPositive(a: int, b: int)
    requires b > 0
    ensures a >= 0 ==> 0 <= TruncDiv(a, b) == a / b
    ensures a < 0 ==> TruncDiv(a, b) <= 0
    ensures IsInt64(a) ==> IsInt64(TruncDiv(a, b))
  {
    TruncDivShrinks(a, b);
    if a >= 0 {
      TruncDivOfNonNegative(a, b);
    }
  }

  lemma MulMonotone(x: nat, y: nat, z: nat)
    requires y <= z
    ensures x * y <= x * z
  {
  }

  /** Euclidean division of naturals by a positive divisor is monotone. */
  lemma DivMonotone(x: nat, y: nat, d: nat)
    requires x <= y && d > 0
    ensures x / d <= y / d
  {
    if x / d > y / d {
      calc {
        x;
      >= d * (x / d);
      >= { MulMonotone(d, y / d + 1, x / d); }
        d * (y / d + 1);
      == d * (y / d) + d;
      >  y;
      }
    }
  }

  /** Truncating division by a positive divisor is monotone, for dividends of either sign. */
  lemma TruncDivMonotone(a1: int, a2: int, b: int)
    requires a1 <= a2 && b > 0
    ensures TruncDiv(a1, b) <= TruncDiv(a2, b)
  {
    if 0 <= a1 {
      DivMonotone(a1, a2, b);
    } else if a2 < 0 {
      DivMonotone(-a2, -a1, b);
    }
  }

  function DigitChar(d: nat): (c: char)
    requires d < 10
    ensures '0' <= c <= '9'
  {
    "0123456789"[d]
  }

  predicate IsDigits(s: string) {
    forall i :: 0 <= i < |s| ==> '0' <= s[i] <= '9'
  }

  /** Decimal rendering of a non-negative integer, most significant digit first, no leading zeros. */
  function NatToString(n: nat): (s: string)
    ensures |s| >= 1 && IsDigits(s)
    ensures |s| == 1 <==> n < 10
    decreases n
  {
    if n < 10 then [DigitChar(n)] else NatToString(n / 10) + [DigitChar(n % 10)]
  }

  /** Like `std::to_string`, the rendering has no leading zero: only 0 starts with '0'. */
  lemma {:induction false} NoLeadingZero(n: nat)
    ensures NatToString(n)[0] == '0' ==> n == 0
    decreases n
  {
    if n >= 10 {
      NoLeadingZero(n / 10);
      assert NatToString(n)[0] == NatToString(n / 10)[0];
    }
  }

  /** The value a string of decimal digits denotes; the reference reading of NatToString. */
  function DecimalValue(s: string): nat
    requires IsDigits(s)
  {
    if s == [] then 0 else DecimalValue(s[..|s| - 1]) * 10 + (s[|s| - 1] - '0') as nat
  }

  lemma DigitCharValue(d: nat)
    requires d < 10
    ensures (DigitChar(d) - '0') as nat == d
  {
  }

  /** Reading back the decimal rendering gives the number rendered. */
  lemma {:induction false} DecimalRoundTrip(n: nat)
    ensures DecimalValue(NatToString(n)) == n
    decreases n
  {
    var s := NatToString(n);
    if n < 10 {
      DigitCharValue(n);
      assert s[..0] == [];
    } else {
      DecimalRoundTrip(n / 10);
      DigitCharValue(n % 10);
      assert s[..|s| - 1] == NatToString(n / 10);
    }
  }

  /** Distinct numbers render as distinct strings. */
  lemma NatToStringInjective(m: nat, n: nat)
    requires NatToString(m) == NatToString(n)
    ensures m == n
  {
    DecimalRoundTrip(m);
    DecimalRoundTrip(n);
  }

  /** A fixed prefix followed by the decimal rendering identifies the number. */
  lemma LabelInjective(prefix: string, m: nat, n: nat)
    requires prefix + NatToString(m) == prefix + NatToString(n)
    ensures m == n
  {
    var a, b := prefix + NatToString(m), prefix + NatToString(n);
    assert a[|prefix|..] == NatToString(m);
    assert b[|prefix|..] == NatToString(n);
    NatToStringInjective(m, n);
  }

  /** `s` written `k` times in a row, as Rust's `str::repeat`. */
  function Repeat(s: string, k: nat): (r: string)
    ensures |r| == |s| * k
    ensures forall i :: 0 <= i < |r| ==> r[i] == s[i % |s|]
    decreases k
  {
    if k == 0 || s == [] then []
    else
      var rest := Repeat(s, k - 1);
      RepeatStep(s, k, rest);
      s + rest
  }

  /** One more copy in front of `k - 1` copies makes `k` copies. */
  lemma RepeatStep(s: string, k: nat, rest: string)
    requires k > 0 && |s| > 0 && |rest| == |s| * (k - 1)
    requires forall i :: 0 <= i < |rest| ==> rest[i] == s[i % |s|]
    ensures |s + rest| == |s| * k
    ensures forall i :: 0 <= i < |s + rest| ==> (s + rest)[i] == s[i % |s|]
  {
    MulSucc(|s|, k);
    forall i | 0 <= i < |s| + |rest| ensures (s + rest)[i] == s[i % |s|] {
      if i < |s| {
        assert i % |s| == i;
      } else {
        assert (s + rest)[i] == rest[i - |s|];
        ModShift(i, |s|);
      }
    }
  }

  lemma MulSucc(a: nat, k: nat)
    requires k > 0
    ensures a * k == a + a * (k - 1)
  {
  }
}
