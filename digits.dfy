/**
 * Decimal renderings of natural numbers as JavaScript produces them
 * (`Number.prototype.toString`, `String.prototype.padStart`,
 * `String.prototype.slice` with a negative start), with the facts about
 * them that the protocol's format rests on.
 */
module Digits {

  function Pow10(k: nat): (r: nat)
    ensures r >= 1
  {
    if k == 0 then 1 else 10 * Pow10(k - 1)
  }

  predicate IsDigit(c: char) { '0' <= c <= '9' }

  predicate AllDigits(s: string) { forall i :: 0 <= i < |s| ==> IsDigit(s[i]) }

  function DigitValue(c: char): int { c as int - '0' as int }

  function DigitChar(d: nat): (c: char)
    requires d < 10
    ensures IsDigit(c) && DigitValue(c) == d
  {
    ('0' as int + d) as char
  }

  /** `n.toString()`: the shortest decimal numeral, without leading zeros. */
  function Decimal(n: nat): (s: string)
    ensures 1 <= |s| && AllDigits(s)
    ensures n > 0 ==> s[0] != '0'
  {
    if n < 10 then [DigitChar(n)] else Decimal(n / 10) + [DigitChar(n % 10)]
  }

  /** The last `k` decimal digits of `n`, zero-filled to exactly `k` characters. */
  function Fixed(n: nat, k: nat): (s: string)
    ensures |s| == k && AllDigits(s)
  {
    if k == 0 then [] else Fixed(n / 10, k - 1) + [DigitChar(n % 10)]
  }

  /** The value of a numeral (leading zeros allowed). */
  function Parse(s: string): (n: nat)
    requires AllDigits(s)
    ensures n < Pow10(|s|)
  {
    if s == [] then 0 else 10 * Parse(s[..|s| - 1]) + DigitValue(s[|s| - 1])
  }

  function Repeat(c: char, k: nat): (s: string)
    ensures |s| == k && forall i :: 0 <= i < k ==> s[i] == c
  {
    if k == 0 then [] else [c] + Repeat(c, k - 1)
  }

  /** `s.padStart(width, fill)` for a one-character fill string. */
  function PadStart(s: string, width: nat, fill: char): (r: string)
    ensures |r| == if |s| >= width then |s| else width
    ensures r[|r| - |s|..] == s
    ensures forall i :: 0 <= i < |r| - |s| ==> r[i] == fill
  {
    if |s| >= width then s else Repeat(fill, width - |s|) + s
  }

  /** `s.slice(-k)` for `k > 0`: the last `k` characters, or all of `s` when it is shorter. */
  function Last(s: string, k: nat): (r: string)
    requires k > 0
    ensures |r| == if |s| <= k then |s| else k
    ensures r == s[|s| - |r|..]
  {
    if |s| <= k then s else s[|s| - k..]
  }

  lemma MulAtLeast(m: int, x: int)
    requires m > 0 && x > 0
    ensures m * x >= m
  {
    if x > 1 {
      MulAtLeast(m, x - 1);
      assert m * x == m * (x - 1) + m;
    }
  }

  lemma DivModUnique(n: int, m: int, a: int, b: int)
    requires m > 0 && 0 <= b < m && n == m * a + b
    ensures n / m == a && n % m == b
  {
    var q, r := n / m, n % m;
    assert n == m * q + r;
    if q < a {
      MulAtLeast(m, a - q);
    } else if q > a {
      MulAtLeast(m, q - a);
    }
  }

  /** Taking a numeral's last digit off and the rest modulo `p` rebuilds it modulo `10 * p`. */
  lemma ModTens(n: nat, p: nat)
    requires p > 0
    ensures n % (10 * p) == 10 * ((n / 10) % p) + n % 10
  {
    var q, r := n / 10, n % 10;
    var a, b := q / p, q % p;
    assert q == p * a + b;
    assert n == (10 * p) * a + (10 * b + r);
    DivModUnique(n, 10 * p, a, 10 * b + r);
  }

  lemma {:induction false} ParseFixed(n: nat, k: nat)
    ensures Parse(Fixed(n, k)) == n % Pow10(k)
  {
    if k > 0 {
      var s := Fixed(n, k);
      assert s[..k - 1] == Fixed(n / 10, k - 1);
      ParseFixed(n / 10, k - 1);
      ModTens(n, Pow10(k - 1));
    }
  }

  /** A number below `10^k` is read back unchanged from its `k`-digit rendering. */
  lemma ParseFixedSmall(n: nat, k: nat)
    requires n < Pow10(k)
    ensures Parse(Fixed(n, k)) == n
  {
    ParseFixed(n, k);
    DivModUnique(n, Pow10(k), 0, n);
  }

  lemma {:induction false} FixedOfMod(a: nat, b: nat, k: nat)
    requires a % Pow10(k) == b % Pow10(k)
    ensures Fixed(a, k) == Fixed(b, k)
  {
    if k > 0 {
      var p := Pow10(k - 1);
      assert Pow10(k) == 10 * p;
      ModTens(a, p);
      ModTens(b, p);
      var n := a % (10 * p);
      DivModUnique(n, 10, (a / 10) % p, a % 10);
      DivModUnique(n, 10, (b / 10) % p, b % 10);
      FixedOfMod(a / 10, b / 10, k - 1);
    }
  }

  /** Two `k`-digit renderings agree exactly when the numbers agree modulo `10^k`. */
  lemma FixedEqual(a: nat, b: nat, k: nat)
    ensures Fixed(a, k) == Fixed(b, k) <==> a % Pow10(k) == b % Pow10(k)
  {
    ParseFixed(a, k);
    ParseFixed(b, k);
    if a % Pow10(k) == b % Pow10(k) {
      FixedOfMod(a, b, k);
    }
  }

  lemma {:induction false} FixedZero(k: nat)
    ensures Fixed(0, k) == Repeat('0', k)
  {
    if k > 0 {
      FixedZero(k - 1);
      assert Repeat('0', k) == Repeat('0', k - 1) + ['0'];
    }
  }

  /** `n.toString()` has at most `k` characters exactly when `n < 10^k`. */
  lemma {:induction false} DecimalLength(n: nat, k: nat)
    requires k >= 1
    ensures |Decimal(n)| <= k <==> n < Pow10(k)
  {
    if n >= 10 {
      if k == 1 {
        assert |Decimal(n)| == |Decimal(n / 10)| + 1;
      } else {
        DecimalLength(n / 10, k - 1);
      }
    }
  }

  lemma LastAppend(s: string, c: char, k: nat)
    requires k >= 1
    ensures Last(s + [c], k + 1) == Last(s, k) + [c]
  {
    if |s| > k {
      assert (s + [c])[|s| - k..] == s[|s| - k..] + [c];
    }
  }

  lemma DivTenAtLeast(n: nat, p: nat)
    requires n >= 10 * p
    ensures n / 10 >= p
  {
    assert n == 10 * (n / 10) + n % 10;
  }

  lemma LastDigit(n: nat)
    ensures Last(Decimal(n), 1) == Fixed(n, 1)
  {
    assert Fixed(n, 1) == Fixed(n / 10, 0) + [DigitChar(n % 10)];
    if n >= 10 {
      var s := Decimal(n / 10) + [DigitChar(n % 10)];
      assert Decimal(n) == s;
      assert s[|s| - 1..] == [DigitChar(n % 10)];
    }
  }

  /** `n.toString().slice(-k)` is the `k`-digit rendering when `n` has at least `k` digits. */
  lemma {:induction false} LastOfDecimal(n: nat, k: nat)
    requires k >= 1 && n >= Pow10(k - 1)
    ensures Last(Decimal(n), k) == Fixed(n, k)
  {
    if k == 1 {
      LastDigit(n);
    } else {
      var p := Pow10(k - 2);
      assert Pow10(k - 1) == 10 * p;
      DivTenAtLeast(n, p);
      assert n >= 10;
      assert Decimal(n) == Decimal(n / 10) + [DigitChar(n % 10)];
      assert Fixed(n, k) == Fixed(n / 10, k - 1) + [DigitChar(n % 10)];
      LastOfDecimal(n / 10, k - 1);
      LastAppend(Decimal(n / 10), DigitChar(n % 10), k - 1);
    }
  }

  /** `n.toString().padStart(k, '0')` is the `k`-digit rendering when `n < 10^k`. */
  lemma {:induction false} PadDecimal(n: nat, k: nat)
    requires k >= 1 && n < Pow10(k)
    ensures PadStart(Decimal(n), k, '0') == Fixed(n, k)
  {
    if n < 10 {
      FixedZero(k - 1);
      assert Fixed(n, k) == Fixed(0, k - 1) + [DigitChar(n)];
    } else {
      var d, c := Decimal(n / 10), DigitChar(n % 10);
      assert k >= 2;
      DecimalLength(n / 10, k - 1);
      PadDecimal(n / 10, k - 1);
      assert PadStart(d + [c], k, '0') == PadStart(d, k - 1, '0') + [c];
    }
  }

  /** `n.toString()` read back gives `n`. */
  lemma {:induction false} ParseDecimal(n: nat)
    ensures Parse(Decimal(n)) == n
  {
    if n >= 10 {
      var s := Decimal(n);
      assert s[..|s| - 1] == Decimal(n / 10);
      ParseDecimal(n / 10);
    }
  }
}
