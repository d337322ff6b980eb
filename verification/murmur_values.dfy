/** The published constants at work: the values of MurmurHash64A on single keys, computed from the
    function in steps on literal words. Exclusive or is computed byte by byte. */
module MurmurValues {
  import opened Arithmetic
  import opened MurmurWords
  import opened MurmurHash

  // ---------------------------------------------------------------- exclusive or, byte by byte

  /** The number with these eight bits. */
  function Num(x: bv8): nat {
    x as nat
  }

  lemma Halved(x: bv8)
    ensures Num(x) == 2 * Num(x >> 1) + if x & 1 == 1 then 1 else 0
    ensures Num(x) < 256 && (Num(x) == 0 <==> x == 0)
  {
  }

  lemma XorHalf(x: bv8, y: bv8)
    ensures (x ^ y) >> 1 == (x >> 1) ^ (y >> 1)
    ensures (x ^ y) & 1 == 1 <==> (x & 1 == 1) != (y & 1 == 1)
  {
  }

  /** The recursive exclusive or is that of the bits. */
  lemma {:induction false} XorBits(x: bv8, y: bv8)
    ensures Xor(Num(x), Num(y)) == Num(x ^ y)
    decreases Num(x) + Num(y)
  {
    hide Num, Xor;
    Halved(x);
    Halved(y);
    Halved(x ^ y);
    XorHalf(x, y);
    if Num(x) + Num(y) > 0 {
      XorBits(x >> 1, y >> 1);
      JoinHalves(Num(x), Num(y), Num(x ^ y), Num(x >> 1), Num(y >> 1), Num((x >> 1) ^ (y >> 1)),
                 x & 1 == 1, y & 1 == 1);
    } else {
      XorZero(0);
    }
  }

  lemma JoinHalves(a: nat, b: nat, c: nat, p: nat, q: nat, r: nat, i: bool, j: bool)
    requires a == 2 * p + (if i then 1 else 0) && b == 2 * q + if j then 1 else 0
    requires c == 2 * r + if i != j then 1 else 0
    requires Xor(p, q) == r
    ensures Xor(a, b) == c
  {
    XorStep(a, b);
    hide Xor;
  }

  // ---------------------------------------------------------------- words

  lemma XorDouble(a: nat, b: nat)
    ensures Xor(2 * a, 2 * b) == 2 * Xor(a, b)
  {
    XorStep(2 * a, 2 * b);
    assert 2 * a / 2 == a && 2 * b / 2 == b;
    hide Xor;
  }

  lemma Xor256(a: nat, b: nat)
    ensures Xor(256 * a, 256 * b) == 256 * Xor(a, b)
  {
    hide Xor;
    XorDouble(a, b);
    XorDouble(2 * a, 2 * b);
    XorDouble(4 * a, 4 * b);
    XorDouble(8 * a, 8 * b);
    XorDouble(16 * a, 16 * b);
    XorDouble(32 * a, 32 * b);
    XorDouble(64 * a, 64 * b);
    XorDouble(128 * a, 128 * b);
  }

  lemma XorFour(a: nat, x: nat, b: nat, y: nat)
    ensures Xor(Xor(a, x), Xor(b, y)) == Xor(Xor(a, b), Xor(x, y))
  {
    hide Xor;
    XorAssoc(a, x, Xor(b, y));
    XorAssoc(x, b, y);
    XorSwap(x, b);
    XorAssoc(b, x, y);
    XorAssoc(a, b, Xor(x, y));
  }

  /** One more byte behind the others. */
  function Add(u: nat, x: bv8): nat {
    256 * u + Num(x)
  }

  lemma AddIsXor(u: nat, x: bv8)
    ensures Add(u, x) == Xor(256 * u, Num(x))
  {
    assert Power2(8) == 256;
    Halved(x);
    hide Xor, Num, Power2;
    XorAdds(Num(x), u, 8);
  }

  lemma XorAdd(a: nat, b: nat, x: bv8, y: bv8)
    ensures Xor(Add(a, x), Add(b, y)) == Add(Xor(a, b), x ^ y)
  {
    hide Xor, Num, Add;
    AddIsXor(a, x);
    AddIsXor(b, y);
    AddIsXor(Xor(a, b), x ^ y);
    XorBits(x, y);
    Xor256(a, b);
    XorFour(256 * a, Num(x), 256 * b, Num(y));
  }

  /** The word with these bytes, high byte first. */
  function Of(a: bv8, b: bv8, c: bv8, d: bv8, e: bv8, f: bv8, g: bv8, h: bv8): nat {
    Add(Add(Add(Add(Add(Add(Add(Num(a), b), c), d), e), f), g), h)
  }

  lemma XorOf(a: bv8, b: bv8, c: bv8, d: bv8, e: bv8, f: bv8, g: bv8, h: bv8,
              a': bv8, b': bv8, c': bv8, d': bv8, e': bv8, f': bv8, g': bv8, h': bv8)
    ensures Xor(Of(a, b, c, d, e, f, g, h), Of(a', b', c', d', e', f', g', h')) ==
      Of(a ^ a', b ^ b', c ^ c', d ^ d', e ^ e', f ^ f', g ^ g', h ^ h')
  {
    hide Xor, Num, Add;
    XorBits(a, a');
    var u, u' := Num(a), Num(a');
    XorAdd(u, u', b, b');
    u, u' := Add(u, b), Add(u', b');
    XorAdd(u, u', c, c');
    u, u' := Add(u, c), Add(u', c');
    XorAdd(u, u', d, d');
    u, u' := Add(u, d), Add(u', d');
    XorAdd(u, u', e, e');
    u, u' := Add(u, e), Add(u', e');
    XorAdd(u, u', f, f');
    u, u' := Add(u, f), Add(u', f');
    XorAdd(u, u', g, g');
    XorAdd(Add(u, g), Add(u', g'), h, h');
  }

  lemma IsXor(x: Word, y: Word, z: Word,
              a: bv8, b: bv8, c: bv8, d: bv8, e: bv8, f: bv8, g: bv8, h: bv8,
              a': bv8, b': bv8, c': bv8, d': bv8, e': bv8, f': bv8, g': bv8, h': bv8)
    requires x == Of(a, b, c, d, e, f, g, h) && y == Of(a', b', c', d', e', f', g', h')
    requires z == Of(a ^ a', b ^ b', c ^ c', d ^ d', e ^ e', f ^ f', g ^ g', h ^ h')
    ensures Xor64(x, y) == z
  {
    hide Xor, Num, Add;
    XorOf(a, b, c, d, e, f, g, h, a', b', c', d', e', f', g', h');
  }

  lemma Shr47(x: Word, s: nat)
    requires s * 0x8000_0000_0000 <= x < (s + 1) * 0x8000_0000_0000
    ensures Shr(x, 47) == s
  {
    ShrDivides(x, 47);
    Power47();
    hide Power2, Shr;
    DivModUnique(x, s, x - s * 0x8000_0000_0000, 0x8000_0000_0000);
  }

  lemma {:induction false} ShrDivides(a: nat, k: nat)
    ensures Shr(a, k) == a / Power2(k)
  {
    if k > 0 {
      ShrDivides(a / 2, k - 1);
      HalfFirst(a, Power2(k - 1));
    }
  }

  lemma HalfFirst(a: nat, p: nat)
    requires p > 0
    ensures a / 2 / p == a / (2 * p)
  {
    var q := a / 2 / p;
    assert a / 2 == q * p + a / 2 % p;
    assert a == q * (2 * p) + (2 * (a / 2 % p) + a % 2);
    DivModUnique(a, q, 2 * (a / 2 % p) + a % 2, 2 * p);
  }

  lemma Power47()
    ensures Power2(47) == 0x8000_0000_0000
  {
    assert Power2(8) == 0x100 && Power2(7) == 0x80;
    PowerAdd(8, 8);
    PowerAdd(16, 16);
    PowerAdd(8, 7);
    PowerAdd(32, 15);
  }

  lemma IsShake(x: Word, z: Word, a: bv8, b: bv8, c: bv8, d: bv8, e: bv8, f: bv8, g: bv8, h: bv8, p: bv8, q: bv8, r: bv8)
    requires x == Of(a, b, c, d, e, f, g, h) && z == Of(a, b, c, d, e, f ^ p, g ^ q, h ^ r)
    requires var s := Of(0, 0, 0, 0, 0, p, q, r); s * 0x8000_0000_0000 <= x < (s + 1) * 0x8000_0000_0000
    ensures Shake(x) == z
  {
    hide Xor, Num, Add;
    var s := Of(0, 0, 0, 0, 0, p, q, r);
    Shr47(x, s);
    ShrFits(x, 47);
    assert a ^ 0 == a && b ^ 0 == b && c ^ 0 == c && d ^ 0 == d && e ^ 0 == e;
    IsXor(x, s, z, a, b, c, d, e, f, g, h, 0, 0, 0, 0, 0, p, q, r);
  }

  lemma LittleStep(b: seq<Byte>, i: nat)
    requires i < |b|
    ensures Little(b[i..]) == b[i] + 256 * Little(b[i + 1..])
  {
    assert b[i..][1..] == b[i + 1..];
  }

  lemma LittleOf(b: seq<Byte>)
    requires |b| == 3
    ensures Little(b) == b[0] as nat + 256 * (b[1] as nat) + 0x1_0000 * (b[2] as nat)
  {
    assert b[0..] == b && b[3..] == [];
    LittleStep(b, 0);
    LittleStep(b, 1);
    LittleStep(b, 2);
  }

  lemma LittleOf4(b: seq<Byte>)
    requires |b| == 4
    ensures Little(b) == b[0] as nat + 256 * (b[1] as nat) + 0x1_0000 * (b[2] as nat) + 0x100_0000 * (b[3] as nat)
  {
    assert b[0..] == b && b[4..] == [];
    LittleStep(b, 0);
    LittleStep(b, 1);
    LittleStep(b, 2);
    LittleStep(b, 3);
  }

  lemma LittleBlock(b: seq<Byte>)
    requires |b| == 8
    ensures Little(b) ==
      b[0] as nat + 0x100 * (b[1] as nat) + 0x1_0000 * (b[2] as nat) + 0x100_0000 * (b[3] as nat)
      + 0x1_0000_0000 * (b[4] as nat) + 0x100_0000_0000 * (b[5] as nat)
      + 0x1_0000_0000_0000 * (b[6] as nat) + 0x100_0000_0000_0000 * (b[7] as nat)
  {
    assert b[0..] == b && Little(b[8..]) == 0;
    LittleStep(b, 0);
    LittleStep(b, 1);
    LittleStep(b, 2);
    LittleStep(b, 3);
    LittleStep(b, 4);
    LittleStep(b, 5);
    LittleStep(b, 6);
    LittleStep(b, 7);
    hide Little;
  }

  // ---------------------------------------------------------------- the moves of single keys

  lemma Start8()
    ensures Start(0, 8) == 0x35253c9ade8f4ca8
  {
    hide Xor;
    assert 8 * M % WORD == 0x35253c9ade8f4ca8;
    IsXor(0x0000000000000000, 0x35253c9ade8f4ca8, 0x35253c9ade8f4ca8,
          0x00, 0x00, 0x00, 0x00, 0x00, 0x00, 0x00, 0x00,
          0x35, 0x25, 0x3c, 0x9a, 0xde, 0x8f, 0x4c, 0xa8);
  }

  lemma MixZero()
    ensures Mix(0x0000000000000000) == 0x0000000000000000
  {
    hide Xor, Shake;
    assert 0x0000000000000000 * M % WORD == 0x0000000000000000;
    IsShake(0x0000000000000000, 0x0000000000000000, 0x00, 0x00, 0x00, 0x00, 0x00, 0x00, 0x00, 0x00, 0x00, 0x00, 0x00);
    assert 0x0000000000000000 * M % WORD == 0x0000000000000000;
  }

  lemma AbsorbZero()
    ensures Absorb(0x35253c9ade8f4ca8, 0x0000000000000000) == 0xad4c7a69435485c8
  {
    hide Xor, Mix;
    MixZero();
    IsXor(0x35253c9ade8f4ca8, 0x0000000000000000, 0x35253c9ade8f4ca8,
          0x35, 0x25, 0x3c, 0x9a, 0xde, 0x8f, 0x4c, 0xa8,
          0x00, 0x00, 0x00, 0x00, 0x00, 0x00, 0x00, 0x00);
    assert 0x35253c9ade8f4ca8 * M % WORD == 0xad4c7a69435485c8;
  }

  lemma Finish8()
    ensures Finish(0xad4c7a69435485c8) == 0x7208f7fa198a2d81
  {
    hide Xor, Shake;
    IsShake(0xad4c7a69435485c8, 0xad4c7a694355df50, 0xad, 0x4c, 0x7a, 0x69, 0x43, 0x54, 0x85, 0xc8, 0x01, 0x5a, 0x98);
    assert 0xad4c7a694355df50 * M % WORD == 0x7208f7fa198ac990;
    IsShake(0x7208f7fa198ac990, 0x7208f7fa198a2d81, 0x72, 0x08, 0xf7, 0xfa, 0x19, 0x8a, 0xc9, 0x90, 0x00, 0xe4, 0x11);
  }

  lemma Start3()
    ensures Start(7, 3) == 0x53edf6ba1375bcb8
  {
    hide Xor;
    assert 3 * M % WORD == 0x53edf6ba1375bcbf;
    IsXor(0x0000000000000007, 0x53edf6ba1375bcbf, 0x53edf6ba1375bcb8,
          0x00, 0x00, 0x00, 0x00, 0x00, 0x00, 0x00, 0x07,
          0x53, 0xed, 0xf6, 0xba, 0x13, 0x75, 0xbc, 0xbf);
  }

  lemma Tail3()
    ensures AbsorbTail(0x53edf6ba1375bcb8, [97, 98, 99]) == 0x7c48322aff4c354d
  {
    hide Xor;
    LittleOf([97, 98, 99]);
    IsXor(0x53edf6ba1375bcb8, 0x0000000000636261, 0x53edf6ba1316ded9,
          0x53, 0xed, 0xf6, 0xba, 0x13, 0x75, 0xbc, 0xb8,
          0x00, 0x00, 0x00, 0x00, 0x00, 0x63, 0x62, 0x61);
    assert 0x53edf6ba1316ded9 * M % WORD == 0x7c48322aff4c354d;
  }

  lemma Finish3()
    ensures Finish(0x7c48322aff4c354d) == 0xcc82712c1f7f6fa5
  {
    hide Xor, Shake;
    IsShake(0x7c48322aff4c354d, 0x7c48322aff4ccddd, 0x7c, 0x48, 0x32, 0x2a, 0xff, 0x4c, 0x35, 0x4d, 0x00, 0xf8, 0x90);
    assert 0x7c48322aff4ccddd * M % WORD == 0xcc82712c1f7ef6a1;
    IsShake(0xcc82712c1f7ef6a1, 0xcc82712c1f7f6fa5, 0xcc, 0x82, 0x71, 0x2c, 0x1f, 0x7e, 0xf6, 0xa1, 0x01, 0x99, 0x04);
  }

  lemma Start11()
    ensures Start(1203989050, 11) == 0x89133354b5c6635d
  {
    hide Xor;
    assert 11 * M % WORD == 0x89133354f2050967;
    IsXor(0x0000000047c36a3a, 0x89133354f2050967, 0x89133354b5c6635d,
          0x00, 0x00, 0x00, 0x00, 0x47, 0xc3, 0x6a, 0x3a,
          0x89, 0x13, 0x33, 0x54, 0xf2, 0x05, 0x09, 0x67);
  }

  lemma Mix11()
    ensures Mix(0x0807060504030201) == 0x5e74aa2e49e0ee0f
  {
    hide Xor, Shake;
    assert 0x0807060504030201 * M % WORD == 0x15c3375010641395;
    IsShake(0x15c3375010641395, 0x15c3375010643813, 0x15, 0xc3, 0x37, 0x50, 0x10, 0x64, 0x13, 0x95, 0x00, 0x2b, 0x86);
    assert 0x15c3375010643813 * M % WORD == 0x5e74aa2e49e0ee0f;
  }

  lemma Absorb11()
    ensures Absorb(0x89133354b5c6635d, 0x0807060504030201) == 0x93e277df5f01e2ba
  {
    hide Xor, Mix;
    Mix11();
    IsXor(0x89133354b5c6635d, 0x5e74aa2e49e0ee0f, 0xd767997afc268d52,
          0x89, 0x13, 0x33, 0x54, 0xb5, 0xc6, 0x63, 0x5d,
          0x5e, 0x74, 0xaa, 0x2e, 0x49, 0xe0, 0xee, 0x0f);
    assert 0xd767997afc268d52 * M % WORD == 0x93e277df5f01e2ba;
  }

  lemma Tail11()
    ensures AbsorbTail(0x93e277df5f01e2ba, [9, 10, 11]) == 0xabcbeeebda475b2f
  {
    hide Xor;
    LittleOf([9, 10, 11]);
    IsXor(0x93e277df5f01e2ba, 0x00000000000b0a09, 0x93e277df5f0ae8b3,
          0x93, 0xe2, 0x77, 0xdf, 0x5f, 0x01, 0xe2, 0xba,
          0x00, 0x00, 0x00, 0x00, 0x00, 0x0b, 0x0a, 0x09);
    assert 0x93e277df5f0ae8b3 * M % WORD == 0xabcbeeebda475b2f;
  }

  lemma Finish11()
    ensures Finish(0xabcbeeebda475b2f) == 0xfdb0284d96912478
  {
    hide Xor, Shake;
    IsShake(0xabcbeeebda475b2f, 0xabcbeeebda460cb8, 0xab, 0xcb, 0xee, 0xeb, 0xda, 0x47, 0x5b, 0x2f, 0x01, 0x57, 0x97);
    assert 0xabcbeeebda460cb8 * M % WORD == 0xfdb0284d9690df18;
    IsShake(0xfdb0284d9690df18, 0xfdb0284d96912478, 0xfd, 0xb0, 0x28, 0x4d, 0x96, 0x90, 0xdf, 0x18, 0x01, 0xfb, 0x60);
  }

  lemma Start16()
    ensures Start(4294967295, 16) == 0x6a4a793542e166af
  {
    hide Xor;
    assert 16 * M % WORD == 0x6a4a7935bd1e9950;
    IsXor(0x00000000ffffffff, 0x6a4a7935bd1e9950, 0x6a4a793542e166af,
          0x00, 0x00, 0x00, 0x00, 0xff, 0xff, 0xff, 0xff,
          0x6a, 0x4a, 0x79, 0x35, 0xbd, 0x1e, 0x99, 0x50);
  }

  lemma Absorb16()
    ensures Absorb(0x6a4a793542e166af, 0x0807060504030201) == 0x2533d77337de2520
  {
    hide Xor, Mix;
    Mix11();
    IsXor(0x6a4a793542e166af, 0x5e74aa2e49e0ee0f, 0x343ed31b0b0188a0,
          0x6a, 0x4a, 0x79, 0x35, 0x42, 0xe1, 0x66, 0xaf,
          0x5e, 0x74, 0xaa, 0x2e, 0x49, 0xe0, 0xee, 0x0f);
    assert 0x343ed31b0b0188a0 * M % WORD == 0x2533d77337de2520;
  }

  lemma Mix16()
    ensures Mix(0x100f0e0d0c0b0a09) == 0x72163c88c8c5f36d
  {
    hide Xor, Shake;
    assert 0x100f0e0d0c0b0a09 * M % WORD == 0xaa22714d72e8083d;
    IsShake(0xaa22714d72e8083d, 0xaa22714d72e95c79, 0xaa, 0x22, 0x71, 0x4d, 0x72, 0xe8, 0x08, 0x3d, 0x01, 0x54, 0x44);
    assert 0xaa22714d72e95c79 * M % WORD == 0x72163c88c8c5f36d;
  }

  lemma AbsorbNext()
    ensures Absorb(0x2533d77337de2520, 0x100f0e0d0c0b0a09) == 0xf66128fa251ccfd1
  {
    hide Xor, Mix;
    Mix16();
    IsXor(0x2533d77337de2520, 0x72163c88c8c5f36d, 0x5725ebfbff1bd64d,
          0x25, 0x33, 0xd7, 0x73, 0x37, 0xde, 0x25, 0x20,
          0x72, 0x16, 0x3c, 0x88, 0xc8, 0xc5, 0xf3, 0x6d);
    assert 0x5725ebfbff1bd64d * M % WORD == 0xf66128fa251ccfd1;
  }

  lemma Finish16()
    ensures Finish(0xf66128fa251ccfd1) == 0xb00ab6898265d51a
  {
    hide Xor, Shake;
    IsShake(0xf66128fa251ccfd1, 0xf66128fa251d2313, 0xf6, 0x61, 0x28, 0xfa, 0x25, 0x1c, 0xcf, 0xd1, 0x01, 0xec, 0xc2);
    assert 0xf66128fa251d2313 * M % WORD == 0xb00ab6898264b50f;
    IsShake(0xb00ab6898264b50f, 0xb00ab6898265d51a, 0xb0, 0x0a, 0xb6, 0x89, 0x82, 0x64, 0xb5, 0x0f, 0x01, 0x60, 0x15);
  }

  lemma Start4()
    ensures Start(12345, 4) == 0x1a929e4d6f47966d
  {
    hide Xor;
    assert 4 * M % WORD == 0x1a929e4d6f47a654;
    IsXor(0x0000000000003039, 0x1a929e4d6f47a654, 0x1a929e4d6f47966d,
          0x00, 0x00, 0x00, 0x00, 0x00, 0x00, 0x30, 0x39,
          0x1a, 0x92, 0x9e, 0x4d, 0x6f, 0x47, 0xa6, 0x54);
  }

  lemma Tail4()
    ensures AbsorbTail(0x1a929e4d6f47966d, [120, 86, 52, 18]) == 0x897f3a1ea656e939
  {
    hide Xor;
    LittleOf4([120, 86, 52, 18]);
    IsXor(0x1a929e4d6f47966d, 0x0000000012345678, 0x1a929e4d7d73c015,
          0x1a, 0x92, 0x9e, 0x4d, 0x6f, 0x47, 0x96, 0x6d,
          0x00, 0x00, 0x00, 0x00, 0x12, 0x34, 0x56, 0x78);
    assert 0x1a929e4d7d73c015 * M % WORD == 0x897f3a1ea656e939;
  }

  lemma Finish4()
    ensures Finish(0x897f3a1ea656e939) == 0x4a5a31d62fd43d67
  {
    hide Xor, Shake;
    IsShake(0x897f3a1ea656e939, 0x897f3a1ea657fbc7, 0x89, 0x7f, 0x3a, 0x1e, 0xa6, 0x56, 0xe9, 0x39, 0x01, 0x12, 0xfe);
    assert 0x897f3a1ea657fbc7 * M % WORD == 0x4a5a31d62fd4a9d3;
    IsShake(0x4a5a31d62fd4a9d3, 0x4a5a31d62fd43d67, 0x4a, 0x5a, 0x31, 0xd6, 0x2f, 0xd4, 0xa9, 0xd3, 0x00, 0x94, 0xb4);
  }

  lemma StartWord()
    ensures Start(12345, 8) == 0x35253c9ade8f7c91
  {
    hide Xor;
    assert 8 * M % WORD == 0x35253c9ade8f4ca8;
    IsXor(0x0000000000003039, 0x35253c9ade8f4ca8, 0x35253c9ade8f7c91,
          0x00, 0x00, 0x00, 0x00, 0x00, 0x00, 0x30, 0x39,
          0x35, 0x25, 0x3c, 0x9a, 0xde, 0x8f, 0x4c, 0xa8);
  }

  lemma MixWord()
    ensures Mix(0x0123456789abcdef) == 0x9efe8d4cf1c7a98f
  {
    hide Xor, Shake;
    assert 0x0123456789abcdef * M % WORD == 0x23444244948c631b;
    IsShake(0x23444244948c631b, 0x23444244948c2593, 0x23, 0x44, 0x42, 0x44, 0x94, 0x8c, 0x63, 0x1b, 0x00, 0x46, 0x88);
    assert 0x23444244948c2593 * M % WORD == 0x9efe8d4cf1c7a98f;
  }

  lemma AbsorbWord()
    ensures Absorb(0x35253c9ade8f7c91, 0x0123456789abcdef) == 0xb376e32476da5876
  {
    hide Xor, Mix;
    MixWord();
    IsXor(0x35253c9ade8f7c91, 0x9efe8d4cf1c7a98f, 0xabdbb1d62f48d51e,
          0x35, 0x25, 0x3c, 0x9a, 0xde, 0x8f, 0x7c, 0x91,
          0x9e, 0xfe, 0x8d, 0x4c, 0xf1, 0xc7, 0xa9, 0x8f);
    assert 0xabdbb1d62f48d51e * M % WORD == 0xb376e32476da5876;
  }

  lemma FinishWord()
    ensures Finish(0xb376e32476da5876) == 0x52fb6ca6ef2126c1
  {
    hide Xor, Shake;
    IsShake(0xb376e32476da5876, 0xb376e32476db3e9b, 0xb3, 0x76, 0xe3, 0x24, 0x76, 0xda, 0x58, 0x76, 0x01, 0x66, 0xed);
    assert 0xb376e32476db3e9b * M % WORD == 0x52fb6ca6ef218337;
    IsShake(0x52fb6ca6ef218337, 0x52fb6ca6ef2126c1, 0x52, 0xfb, 0x6c, 0xa6, 0xef, 0x21, 0x83, 0x37, 0x00, 0xa5, 0xf6);
  }

  // ---------------------------------------------------------------- whole keys

  /** The empty key. */
  lemma HashOfNothing()
    ensures Hash([], 0) == 0
  {
    XorZero(0);
    assert Start(0, 0) == 0 by { hide Xor; }
    ShakeNothing();
    var key: seq<Byte> := [];
    assert Tail(key) == [] && Blocks(key, 0) == [];
    hide Start, Xor, Shake;
  }

  lemma ShakeNothing()
    ensures Shake(0) == 0
  {
    Shr47(0, 0);
    XorZero(0);
    hide Shr, Xor;
  }

  /** One block of zeros: its seed and its block are 0, so all comes from the length. */
  lemma HashOfZero()
    ensures Hash8(0, 0) == 0x7208f7fa198a2d81
  {
    Start8();
    AbsorbZero();
    Finish8();
    hide Start, Absorb, Finish, Xor, Shake, Mix, Bytes;
    WordBlock(0);
    AbsorbOne(0x35253c9ade8f4ca8, 0);
  }

  lemma OneBlock(key: seq<Byte>)
    requires |key| == 8
    ensures Blocks(key, 1) == [ToWord(key)] && Tail(key) == []
  {
    assert key[0..8] == key;
    hide ToWord;
  }

  lemma WordBlock(k: Word)
    ensures Blocks(Bytes(k, 8), 1) == [k] && Tail(Bytes(k, 8)) == []
  {
    hide Bytes, Little, Power2, Blocks, Tail;
    WordIsPower();
    LittleOfBytes(k, 8);
    OneBlock(Bytes(k, 8));
  }

  lemma AbsorbOne(h: Word, k: Word)
    ensures AbsorbAll(h, [k]) == Absorb(h, k)
  {
    assert [k][..0] == [];
  }

  lemma AbsorbTwo(h: Word, k: Word, l: Word)
    ensures AbsorbAll(h, [k, l]) == Absorb(Absorb(h, k), l)
  {
    hide Absorb;
    assert [k, l][..1] == [k];
    AbsorbOne(h, k);
  }

  /** A tail alone. */
  lemma HashOfTail()
    ensures Hash([0x61, 0x62, 0x63], 7) == 0xcc82712c1f7f6fa5
  {
    Start3();
    Tail3();
    Finish3();
    hide Start, AbsorbTail, Finish, Xor, Shake;
  }

  lemma BlockAndTail(a: seq<Byte>, t: seq<Byte>)
    requires |a| == 8 && |t| < 8
    ensures Blocks(a + t, 1) == [ToWord(a)] && Tail(a + t) == t
  {
    assert (a + t)[0..8] == a && (a + t)[8..] == t;
    hide ToWord;
  }

  lemma TwoBlocks(a: seq<Byte>, b: seq<Byte>)
    requires |a| == |b| == 8
    ensures Blocks(a + b, 2) == [ToWord(a), ToWord(b)] && Tail(a + b) == []
  {
    assert (a + b)[0..8] == a && (a + b)[8..16] == b;
    hide ToWord;
  }

  /** One block and a tail, with the default seed. */
  lemma HashOfBlockAndTail()
    ensures Hash([1, 2, 3, 4, 5, 6, 7, 8] + [9, 10, 11], 1203989050) == 0xfdb0284d96912478
  {
    Start11();
    Absorb11();
    Tail11();
    Finish11();
    hide Start, Absorb, AbsorbTail, Finish, Xor, Shake, Mix;
    var block: seq<Byte>, tail: seq<Byte> := [1, 2, 3, 4, 5, 6, 7, 8], [9, 10, 11];
    BlockAndTail(block, tail);
    LittleBlock(block);
    hide Little;
    AbsorbOne(0x89133354b5c6635d, 0x0807060504030201);
  }

  /** Two blocks, with the highest seed. */
  lemma HashOfBlocks()
    ensures Hash([1, 2, 3, 4, 5, 6, 7, 8] + [9, 10, 11, 12, 13, 14, 15, 16], 0xffffffff) == 0xb00ab6898265d51a
  {
    Start16();
    Absorb16();
    AbsorbNext();
    Finish16();
    hide Start, Absorb, Finish, Xor, Shake, Mix;
    var a: seq<Byte>, b: seq<Byte> := [1, 2, 3, 4, 5, 6, 7, 8], [9, 10, 11, 12, 13, 14, 15, 16];
    TwoBlocks(a, b);
    LittleBlock(a);
    LittleBlock(b);
    hide Little;
    AbsorbTwo(0x6a4a793542e166af, 0x0807060504030201, 0x100f0e0d0c0b0a09);
  }

  /** operator() on a 32-bit key. */
  lemma HashOfHalfWord()
    ensures Hash4(0x12345678, 12345) == 0x4a5a31d62fd43d67
  {
    Start4();
    Tail4();
    Finish4();
    HalfWordBytes();
    hide Start, AbsorbTail, Finish, Xor, Shake, Bytes;
  }

  lemma HalfWordBytes()
    ensures Bytes(0x12345678, 4) == [0x78, 0x56, 0x34, 0x12]
  {
    assert Bytes(0x12, 1) == [0x12] + Bytes(0, 0);
    assert Bytes(0x1234, 2) == [0x34] + Bytes(0x12, 1);
    assert Bytes(0x123456, 3) == [0x56] + Bytes(0x1234, 2);
  }

  /** operator() on a 64-bit key. */
  lemma HashOfWord()
    ensures Hash8(0x0123456789abcdef, 12345) == 0x52fb6ca6ef2126c1
  {
    StartWord();
    AbsorbWord();
    FinishWord();
    hide Start, Absorb, Finish, Xor, Shake, Mix, Bytes;
    WordBlock(0x0123456789abcdef);
    AbsorbOne(0x35253c9ade8f7c91, 0x0123456789abcdef);
  }
}
