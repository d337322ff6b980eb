/** Integer arithmetic the solver does not do on its own. */
module Arithmetic {

  lemma MulGap(x: int, y: int, d: nat)
    requires x < y
    ensures x * d + d <= y * d
  {
    assert (y - x - 1) * d >= 0;
  }

  /** Quotient and remainder are what satisfies their equation. */
  lemma DivModUnique(a: int, q: int, r: int, d: int)
    requires d > 0 && a == q * d + r && 0 <= r < d
    ensures a / d == q && a % d == r
  {
    var q', r' := a / d, a % d;
    assert a == q' * d + r' by { assert a == d * q' + r'; assert d * q' == q' * d; }
    if q' < q { MulGap(q', q, d); }
    if q' > q { MulGap(q, q', d); }
  }

  lemma MulMod(q: int, d: int)
    requires d > 0
    ensures q * d % d == 0
  {
    DivModUnique(q * d, q, 0, d);
  }

  function Power2(k: nat): (r: nat)
    ensures r > 0
  {
    if k == 0 then 1 else 2 * Power2(k - 1)
  }

  lemma {:induction false} PowerAdd(a: nat, b: nat)
    ensures Power2(a + b) == Power2(a) * Power2(b)
  {
    if a > 0 { PowerAdd(a - 1, b); }
  }

  /** The number of values of a 64-bit word. */
  const WORD: nat := 0x1_0000_0000_0000_0000

  lemma WordIsPower()
    ensures WORD == Power2(64)
  {
    assert Power2(8) == 256;
    PowerAdd(8, 8);
    PowerAdd(16, 16);
    PowerAdd(32, 32);
  }

  lemma {:induction false} PowerDivides(k: nat, n: nat)
    requires k <= n
    ensures Power2(n) % Power2(k) == 0
  {
    if k < n {
      PowerDivides(k, n - 1);
      var q := Power2(n - 1) / Power2(k);
      assert Power2(n) == (2 * q) * Power2(k);
      MulMod(2 * q, Power2(k));
    } else {
      MulMod(1, Power2(k));
    }
  }

  /** A remainder by `d` survives the wrap-around of a word, when `d` divides the word. */
  lemma ModOfMod(a: int, w: int, d: int)
    requires w > 0 && d > 0 && w % d == 0
    ensures (a % w) % d == a % d
  {
    var q, p, k := a / w, a % w / d, w / d;
    assert a == q * w + a % w && a % w == p * d + a % w % d && w == k * d;
    assert q * (k * d) == q * k * d;
    assert a == (q * k + p) * d + a % w % d;
    DivModUnique(a, q * k + p, a % w % d, d);
  }

  /** Counting on in a word. */
  lemma WordNext(n: nat)
    ensures (n % WORD + 1) % WORD == (n + 1) % WORD
  {
    var q := n / WORD;
    if n % WORD + 1 == WORD {
      DivModUnique(n + 1, q + 1, 0, WORD);
    } else {
      DivModUnique(n + 1, q, n % WORD + 1, WORD);
    }
  }

  /** A difference of less than a word survives the wrap-around of both sides. */
  lemma WordDifference(n: nat, m: nat)
    requires 0 <= n - m < WORD
    ensures (n % WORD - m % WORD) % WORD == n - m
  {
    var q, p := n / WORD, m / WORD;
    DivModUnique(n % WORD - m % WORD, p - q, n - m, WORD);
  }

  /** Less than `d` apart, remainders differ. */
  lemma ModApart(a: int, k: int, d: int)
    requires 0 < k < d
    ensures a % d != (a + k) % d
  {
    var q, r := a / d, a % d;
    if r + k < d {
      DivModUnique(a + k, q, r + k, d);
    } else {
      DivModUnique(a + k, q + 1, r + k - d, d);
    }
  }

  /** Going on by a multiple of `d` changes no remainder. */
  lemma ModPlus(a: int, k: int, d: int)
    requires d > 0 && k % d == 0
    ensures (a + k) % d == a % d
  {
    DivModUnique(a + k, a / d + k / d, a % d, d);
  }
}
