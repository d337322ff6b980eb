/** fastrange32 and fastrange64: a balanced map of machine words onto [0, cap). */
module Fastrange {
  import opened Arithmetic

  const HALF_WORD: nat := 0x1_0000_0000

  type Word32 = w: nat | w < HALF_WORD
  type Word64 = w: nat | w < WORD

  /** The scaling both share: the top half of the double-width product. */
  function Scale(width: nat, cap: nat, x: nat): nat
    requires width > 0
  {
    x * cap / width
  }

  function Fastrange32(cap: Word32, x: Word32): Word32 {
    ScaleBelow(HALF_WORD, cap, x);
    Scale(HALF_WORD, cap, x)
  }

  function Fastrange64(cap: Word64, x: Word64): Word64 {
    ScaleBelow(WORD, cap, x);
    Scale(WORD, cap, x)
  }

  function CeilDiv(a: nat, b: nat): nat
    requires b > 0
  {
    (a + b - 1) / b
  }

  lemma Quotient(a: nat, b: nat, q: nat)
    requires b > 0
    ensures a / b == q <==> q * b <= a < (q + 1) * b
  {
    assert (q + 1) * b == q * b + b;
    if q * b <= a < (q + 1) * b { DivModUnique(a, q, a - q * b, b); }
    assert a == a / b * b + a % b by { assert a / b * b == b * (a / b); }
  }

  lemma CeilBounds(a: nat, b: nat, x: nat)
    requires b > 0
    ensures CeilDiv(a, b) <= x <==> a <= x * b
  {
    var c := CeilDiv(a, b);
    Quotient(a + b - 1, b, c);
    assert (c + 1) * b == c * b + b;
    if c <= x { MulLe(c, x, b); } else { MulGap(x, c, b); }
  }

  lemma MulLe(x: nat, y: nat, d: nat)
    requires x <= y
    ensures x * d <= y * d
  {
    if x < y { MulGap(x, y, d); }
  }

  lemma ScaleBelow(width: nat, cap: nat, x: nat)
    requires width > 0 && x < width
    ensures Scale(width, cap, x) < cap || (cap == 0 && Scale(width, cap, x) == 0)
  {
    var q := Scale(width, cap, x);
    Quotient(x * cap, width, q);
    if cap == 0 {
      Quotient(0, width, 0);
    } else {
      MulGap(x, width, cap);
      if q >= cap { MulLe(cap, q, width); }
    }
  }

  /** x goes to j exactly if it lies between these bounds. */
  lemma Preimage(width: nat, cap: nat, j: nat, x: nat)
    requires width > 0 && cap > 0
    ensures Scale(width, cap, x) == j <==> CeilDiv(j * width, cap) <= x < CeilDiv((j + 1) * width, cap)
  {
    Quotient(x * cap, width, j);
    CeilBounds(j * width, cap, x);
    CeilBounds((j + 1) * width, cap, x);
  }

  function PreimageSize(width: nat, cap: nat, j: nat): int
    requires cap > 0
  {
    CeilDiv((j + 1) * width, cap) - CeilDiv(j * width, cap)
  }

  lemma CeilAtMost(a: nat, d: nat, cap: nat)
    requires cap > 0
    ensures CeilDiv(a + d, cap) <= CeilDiv(a, cap) + CeilDiv(d, cap)
  {
    var x, y := CeilDiv(a, cap), CeilDiv(d, cap);
    CeilBounds(a, cap, x);
    CeilBounds(d, cap, y);
    assert (x + y) * cap == x * cap + y * cap;
    CeilBounds(a + d, cap, x + y);
  }

  lemma CeilAtLeast(a: nat, d: nat, cap: nat)
    requires cap > 0
    ensures CeilDiv(a, cap) + d / cap <= CeilDiv(a + d, cap)
  {
    var b, q := CeilDiv(a + d, cap), d / cap;
    CeilBounds(a + d, cap, b);
    Quotient(d, cap, q);
    if b < q { MulGap(b, q, cap); }
    assert (b - q) * cap == b * cap - q * cap;
    CeilBounds(a, cap, b - q);
  }

  /** Each result has floor or ceiling of width / cap preimages, all of them below `width`. */
  lemma Balanced(width: nat, cap: nat, j: nat)
    requires width > 0 && cap > 0 && j < cap
    ensures width / cap <= PreimageSize(width, cap, j) <= CeilDiv(width, cap)
    ensures CeilDiv(width, cap) <= width / cap + 1
    ensures CeilDiv((j + 1) * width, cap) <= width
  {
    assert (j + 1) * width == j * width + width;
    CeilAtMost(j * width, width, cap);
    CeilAtLeast(j * width, width, cap);
    Quotient(width, cap, width / cap);
    CeilBounds(width, cap, width / cap + 1);
    MulLe(j + 1, cap, width);
    assert width * cap == cap * width;
    CeilBounds((j + 1) * width, cap, width);
  }

  lemma Monotone(width: nat, cap: nat, x: nat, y: nat)
    requires width > 0 && x <= y
    ensures Scale(width, cap, x) <= Scale(width, cap, y)
  {
    var q, p := Scale(width, cap, x), Scale(width, cap, y);
    MulLe(x, y, cap);
    Quotient(x * cap, width, q);
    Quotient(y * cap, width, p);
    if p < q { MulLe(p + 1, q, width); }
  }

  /** Main result for 32 bits: monotone, below cap, and balanced. */
  lemma Fastrange32Balanced(cap: Word32, x: Word32, y: Word32, j: nat)
    requires 0 < cap && j < cap
    ensures Fastrange32(cap, x) < cap && (x <= y ==> Fastrange32(cap, x) <= Fastrange32(cap, y))
    ensures Fastrange32(cap, x) == j <==> CeilDiv(j * HALF_WORD, cap) <= x < CeilDiv((j + 1) * HALF_WORD, cap)
    ensures HALF_WORD / cap <= PreimageSize(HALF_WORD, cap, j) <= CeilDiv(HALF_WORD, cap) <= HALF_WORD / cap + 1
    ensures CeilDiv((j + 1) * HALF_WORD, cap) <= HALF_WORD
  {
    ScaleBelow(HALF_WORD, cap, x);
    if x <= y { Monotone(HALF_WORD, cap, x, y); }
    Preimage(HALF_WORD, cap, j, x);
    Balanced(HALF_WORD, cap, j);
  }

  /** Main result for 64 bits. */
  lemma Fastrange64Balanced(cap: Word64, x: Word64, y: Word64, j: nat)
    requires 0 < cap && j < cap
    ensures Fastrange64(cap, x) < cap && (x <= y ==> Fastrange64(cap, x) <= Fastrange64(cap, y))
    ensures Fastrange64(cap, x) == j <==> CeilDiv(j * WORD, cap) <= x < CeilDiv((j + 1) * WORD, cap)
    ensures WORD / cap <= PreimageSize(WORD, cap, j) <= CeilDiv(WORD, cap) <= WORD / cap + 1
    ensures CeilDiv((j + 1) * WORD, cap) <= WORD
  {
    ScaleBelow(WORD, cap, x);
    if x <= y { Monotone(WORD, cap, x, y); }
    Preimage(WORD, cap, j, x);
    Balanced(WORD, cap, j);
  }
}
