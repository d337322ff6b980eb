/** 64-bit words as numbers: exclusive or, shifts and multiplication modulo 2^64. */
module MurmurWords {
  import opened Arithmetic

  type Word = w: nat | w < WORD

  /** Bitwise exclusive or. */
  function Xor(a: nat, b: nat): nat {
    if a == 0 && b == 0 then 0 else 2 * Xor(a / 2, b / 2) + (a + b) % 2
  }

  /** a >> k. */
  function Shr(a: nat, k: nat): nat {
    if k == 0 then a else Shr(a / 2, k - 1)
  }

  lemma XorStep(a: nat, b: nat)
    ensures Xor(a, b) / 2 == Xor(a / 2, b / 2) && Xor(a, b) % 2 == (a + b) % 2
  {
  }

  lemma {:induction false} XorTwice(a: nat, b: nat)
    ensures Xor(Xor(a, b), b) == a
    decreases a + b
  {
    if a != 0 || b != 0 {
      XorTwice(a / 2, b / 2);
      XorStep(a, b);
      XorStep(Xor(a, b), b);
      hide Xor;
      Parity(a, b, b, Xor(a, b), 0);
      Halves(Xor(Xor(a, b), b), a);
    }
  }

  lemma {:induction false} XorZero(a: nat)
    ensures Xor(a, 0) == a == Xor(0, a)
  {
    if a != 0 { XorZero(a / 2); }
  }

  lemma {:induction false} XorAssoc(a: nat, b: nat, c: nat)
    ensures Xor(Xor(a, b), c) == Xor(a, Xor(b, c))
    decreases a + b + c
  {
    if a != 0 || b != 0 || c != 0 {
      XorAssoc(a / 2, b / 2, c / 2);
      XorStep(a, b);
      XorStep(b, c);
      XorStep(Xor(a, b), c);
      XorStep(a, Xor(b, c));
      hide Xor;
      Parity(a, b, c, Xor(a, b), Xor(b, c));
      Halves(Xor(Xor(a, b), c), Xor(a, Xor(b, c)));
    }
  }

  lemma {:induction false} XorSwap(a: nat, b: nat)
    ensures Xor(a, b) == Xor(b, a)
    decreases a + b
  {
    if a != 0 || b != 0 { XorSwap(a / 2, b / 2); }
  }

  lemma Halves(x: nat, y: nat)
    requires x / 2 == y / 2 && x % 2 == y % 2
    ensures x == y
  {
  }

  lemma Parity(a: nat, b: nat, c: nat, ab: nat, bc: nat)
    requires ab % 2 == (a + b) % 2 && bc % 2 == (b + c) % 2
    ensures (ab + c) % 2 == (a + bc) % 2
  {
  }

  lemma {:induction false} ShrXor(a: nat, b: nat, k: nat)
    ensures Shr(Xor(a, b), k) == Xor(Shr(a, k), Shr(b, k))
  {
    if k > 0 {
      XorStep(a, b);
      ShrXor(a / 2, b / 2, k - 1);
    }
  }

  lemma {:induction false} ShrShr(a: nat, k: nat, j: nat)
    ensures Shr(Shr(a, k), j) == Shr(a, k + j)
  {
    if k > 0 { ShrShr(a / 2, k - 1, j); }
  }

  /** Nothing is left of a number of k bits after k shifts, and only of such a number. */
  lemma {:induction false} ShrGone(a: nat, k: nat)
    ensures Shr(a, k) == 0 <==> a < Power2(k)
  {
    if k > 0 { ShrGone(a / 2, k - 1); }
  }

  lemma XorFits(a: Word, b: Word)
    ensures Xor(a, b) < WORD
  {
    WordIsPower();
    ShrGone(a, 64);
    ShrGone(b, 64);
    ShrXor(a, b, 64);
    ShrGone(Xor(a, b), 64);
  }

  lemma {:induction false} ShrFits(a: nat, k: nat)
    ensures Shr(a, k) <= a
  {
    if k > 0 { ShrFits(a / 2, k - 1); }
  }

  /** Exclusive or of numbers that share no bit is their sum. */
  lemma {:induction false} XorAdds(a: nat, b: nat, k: nat)
    requires a < Power2(k)
    ensures Xor(b * Power2(k), a) == b * Power2(k) + a
  {
    if k == 0 {
      XorZero(b);
    } else {
      var c, half := b * Power2(k), b * Power2(k - 1);
      assert c == 2 * half;
      XorAdds(a / 2, b, k - 1);
      XorStep(c, a);
      hide Xor, Power2;
      FromHalves(Xor(c, a), half, a);
    }
  }

  lemma FromHalves(x: nat, half: nat, a: nat)
    requires x / 2 == half + a / 2 && x % 2 == (2 * half + a) % 2
    ensures x == 2 * half + a
  {
  }

  // ---------------------------------------------------------------- the two reversible moves

  function Xor64(a: Word, b: Word): Word {
    XorFits(a, b);
    Xor(a, b)
  }

  function Mul64(a: Word, b: Word): Word {
    a * b % WORD
  }

  /** x ^= x >> r. */
  function Shake(x: Word): Word {
    ShrFits(x, 47);
    Xor64(x, Shr(x, 47))
  }

  /** x ^= x >> 47 undoes itself. */
  lemma ShakeTwice(x: Word)
    ensures Shake(Shake(x)) == x
  {
    var s := Shr(x, 47);
    WordIsPower();
    ShrGone(x, 64);
    ShrShr(x, 47, 47);
    ShrShr(x, 64, 30);
    ShrGone(0, 30);
    ShrXor(x, s, 47);
    XorZero(s);
    XorTwice(x, s);
  }

  /** Multiplying by a number can be undone by multiplying by its inverse modulo 2^64. */
  lemma MulInverse(x: Word, m: Word, inverse: Word)
    requires m * inverse % WORD == 1
    ensures Mul64(Mul64(x, m), inverse) == x
  {
    var p, q := x * m / WORD, m * inverse / WORD;
    var y := x * m % WORD;
    assert x * m == p * WORD + y && m * inverse == q * WORD + 1;
    assert y * inverse == (x * q - p * inverse) * WORD + x by {
      assert y * inverse == x * m * inverse - p * WORD * inverse;
      assert x * m * inverse == x * (m * inverse);
      assert x * (q * WORD + 1) == x * q * WORD + x;
      assert p * WORD * inverse == p * inverse * WORD;
      assert (x * q - p * inverse) * WORD == x * q * WORD - p * inverse * WORD;
    }
    DivModUnique(y * inverse, x * q - p * inverse, x, WORD);
  }
}
