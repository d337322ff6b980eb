/** MurmurHash64A, for a machine that stores words with the low byte first. */
module MurmurHash {
  import opened Arithmetic
  import opened MurmurWords

  type Byte = b: nat | b < 256

  /** `unsigned int seed`. */
  type Seed = s: nat | s < 0x1_0000_0000

  const M: Word := 0xc6a4a7935bd1e995

  /** The inverse of the odd M modulo 2^64. */
  const INVERSE: Word := 0x5f7a0ea7e59b19bd

  // ---------------------------------------------------------------- bytes

  /** The number whose bytes these are, low byte first. */
  function Little(bytes: seq<Byte>): nat {
    if bytes == [] then 0 else bytes[0] + 256 * Little(bytes[1..])
  }

  /** The n low bytes of a number. */
  function Bytes(k: nat, n: nat): (bytes: seq<Byte>)
    ensures |bytes| == n
  {
    if n == 0 then [] else [k % 256] + Bytes(k / 256, n - 1)
  }

  lemma NextByte(n: nat)
    ensures Power2(8 * (n + 1)) == 256 * Power2(8 * n)
  {
    PowerAdd(8, 8 * n);
    assert Power2(8) == 256;
  }

  lemma {:induction false} LittleFits(bytes: seq<Byte>)
    ensures Little(bytes) < Power2(8 * |bytes|)
  {
    if bytes != [] {
      LittleFits(bytes[1..]);
      NextByte(|bytes| - 1);
    }
  }

  lemma {:induction false} LittleOfBytes(k: nat, n: nat)
    requires k < Power2(8 * n)
    ensures Little(Bytes(k, n)) == k
  {
    if n > 0 {
      NextByte(n - 1);
      LittleOfBytes(k / 256, n - 1);
      assert Bytes(k, n)[1..] == Bytes(k / 256, n - 1);
    }
  }

  lemma {:induction false} LittleInjective(a: seq<Byte>, b: seq<Byte>)
    requires |a| == |b| && Little(a) == Little(b)
    ensures a == b
  {
    if a != [] {
      assert a[0] == Little(a) % 256 && b[0] == Little(b) % 256;
      LittleInjective(a[1..], b[1..]);
    }
  }

  /** Up to eight bytes make a word. */
  function ToWord(bytes: seq<Byte>): Word
    requires |bytes| <= 8
  {
    LittleFits(bytes);
    WordIsPower();
    PowerAdd(8 * |bytes|, 64 - 8 * |bytes|);
    MulGap(0, Power2(64 - 8 * |bytes|), Power2(8 * |bytes|));
    Little(bytes)
  }

  // ---------------------------------------------------------------- the hash as a function

  function Mix(k: Word): Word {
    Mul64(Shake(Mul64(k, M)), M)
  }

  /** One turn of the loop. */
  function Absorb(h: Word, k: Word): Word {
    Mul64(Xor64(h, Mix(k)), M)
  }

  function AbsorbAll(h: Word, ks: seq<Word>): Word {
    if ks == [] then h else Absorb(AbsorbAll(h, ks[..|ks| - 1]), ks[|ks| - 1])
  }

  function AbsorbTail(h: Word, tail: seq<Byte>): Word
    requires |tail| < 8
  {
    if tail == [] then h else Mul64(Xor64(h, ToWord(tail)), M)
  }

  function Finish(h: Word): Word {
    Shake(Mul64(Shake(h), M))
  }

  function Start(seed: Seed, len: nat): Word {
    Xor64(seed, len * M % WORD)
  }

  /** The first n blocks of eight bytes. */
  function Blocks(key: seq<Byte>, n: nat): (ks: seq<Word>)
    requires 8 * n <= |key|
    ensures |ks| == n && forall i :: 0 <= i < n ==> ks[i] == ToWord(key[8 * i..8 * i + 8])
  {
    if n == 0 then [] else Blocks(key, n - 1) + [ToWord(key[8 * (n - 1)..8 * n])]
  }

  function Tail(key: seq<Byte>): (tail: seq<Byte>)
    ensures |tail| < 8
  {
    key[|key| - |key| % 8..]
  }

  function Hash(key: seq<Byte>, seed: Seed): Word {
    Finish(AbsorbTail(AbsorbAll(Start(seed, |key|), Blocks(key, |key| / 8)), Tail(key)))
  }

  // ---------------------------------------------------------------- every move can be undone

  function Unmix(k: Word): Word {
    Mul64(Shake(Mul64(k, INVERSE)), INVERSE)
  }

  function Unfinish(h: Word): Word {
    Shake(Mul64(Shake(h), INVERSE))
  }

  lemma TimesM(x: Word)
    ensures Mul64(Mul64(x, M), INVERSE) == x && Mul64(Mul64(x, INVERSE), M) == x
  {
    assert M * INVERSE % WORD == 1;
    assert INVERSE * M == M * INVERSE;
    MulInverse(x, M, INVERSE);
    MulInverse(x, INVERSE, M);
  }

  lemma MixUndone(k: Word)
    ensures Unmix(Mix(k)) == k && Mix(Unmix(k)) == k
  {
    var a, b := Mul64(k, M), Mul64(k, INVERSE);
    TimesM(k);
    TimesM(Shake(a));
    TimesM(Shake(b));
    ShakeTwice(a);
    ShakeTwice(b);
    hide Mul64, Shake;
  }

  lemma FinishUndone(h: Word)
    ensures Unfinish(Finish(h)) == h && Finish(Unfinish(h)) == h
  {
    var s := Shake(h);
    TimesM(s);
    ShakeTwice(h);
    ShakeTwice(Mul64(s, M));
    ShakeTwice(Mul64(s, INVERSE));
    hide Mul64, Shake;
  }

  /** A turn of the loop is reversible in the state and in the block. */
  lemma AbsorbUndone(h: Word, k: Word)
    ensures Xor64(Mul64(Absorb(h, k), INVERSE), Mix(k)) == h
    ensures Unmix(Xor64(Mul64(Absorb(h, k), INVERSE), h)) == k
  {
    var x := Mix(k);
    TimesM(Xor64(h, x));
    XorTwice(h, x);
    XorSwap(h, x);
    XorTwice(x, h);
    MixUndone(k);
    hide Mul64, Mix, Unmix, Xor;
  }

  lemma AbsorbInjective(h: Word, h': Word, k: Word, k': Word)
    requires Absorb(h, k) == Absorb(h', k')
    ensures h == h' <==> k == k'
  {
    AbsorbUndone(h, k);
    AbsorbUndone(h', k');
    hide Absorb, Mul64, Xor64, Mix, Unmix;
  }

  lemma {:induction false} AbsorbAllInjective(h: Word, h': Word, ks: seq<Word>)
    ensures AbsorbAll(h, ks) == AbsorbAll(h', ks) <==> h == h'
  {
    if ks != [] {
      var init, last := ks[..|ks| - 1], ks[|ks| - 1];
      AbsorbAllInjective(h, h', init);
      if AbsorbAll(h, ks) == AbsorbAll(h', ks) {
        AbsorbInjective(AbsorbAll(h, init), AbsorbAll(h', init), last, last);
      }
    }
  }

  lemma TailInjective(h: Word, h': Word, tail: seq<Byte>)
    requires |tail| < 8
    ensures AbsorbTail(h, tail) == AbsorbTail(h', tail) <==> h == h'
  {
    if tail != [] {
      var w := ToWord(tail);
      TimesM(Xor64(h, w));
      TimesM(Xor64(h', w));
      XorTwice(h, w);
      XorTwice(h', w);
      hide Mul64, Xor, ToWord;
    }
  }

  lemma TailBytesInjective(h: Word, tail: seq<Byte>, tail': seq<Byte>)
    requires |tail| == |tail'| < 8
    ensures AbsorbTail(h, tail) == AbsorbTail(h, tail') <==> tail == tail'
  {
    if tail != [] && AbsorbTail(h, tail) == AbsorbTail(h, tail') {
      var w, w' := ToWord(tail), ToWord(tail');
      TimesM(Xor64(h, w));
      TimesM(Xor64(h, w'));
      XorSwap(h, w);
      XorSwap(h, w');
      XorTwice(w, h);
      XorTwice(w', h);
      assert Xor64(h, w) == Xor64(h, w') by { hide Xor, ToWord, Little; }
      LittleInjective(tail, tail');
    }
  }

  lemma FinishInjective(h: Word, h': Word)
    ensures Finish(h) == Finish(h') <==> h == h'
  {
    FinishUndone(h);
    FinishUndone(h');
    hide Finish, Unfinish;
  }

  // ---------------------------------------------------------------- keys of eight and of four bytes

  /** operator()(uint64_t). */
  function Hash8(k: Word, seed: Seed): Word {
    Hash(Bytes(k, 8), seed)
  }

  /** operator()(uint32_t). */
  function Hash4(k: nat, seed: Seed): Word
    requires k < 0x1_0000_0000
  {
    Hash(Bytes(k, 4), seed)
  }

  function Unhash8(h: Word, seed: Seed): Word {
    Unmix(Xor64(Mul64(Unfinish(h), INVERSE), Start(seed, 8)))
  }

  lemma Hash8Is(k: Word, seed: Seed)
    ensures Hash8(k, seed) == Finish(Absorb(Start(seed, 8), k))
  {
    var key := Bytes(k, 8);
    WordIsPower();
    LittleOfBytes(k, 8);
    assert key[0..8] == key;
    assert Blocks(key, 1) == [ToWord(key)];
    assert Tail(key) == [];
    hide Absorb, Finish, Start, Bytes, Little;
    assert AbsorbAll(Start(seed, 8), [k]) == Absorb(Start(seed, 8), k) by { assert [k][..0] == []; }
  }

  /** Main result: on keys of eight bytes the hash is a bijection of the 64-bit words, for every
      seed; Unhash8 is its inverse. */
  lemma EightBytesBijective(k: Word, seed: Seed)
    ensures Unhash8(Hash8(k, seed), seed) == k
    ensures Hash8(Unhash8(k, seed), seed) == k
  {
    var h := Start(seed, 8);
    Hash8Is(k, seed);
    FinishUndone(Absorb(h, k));
    AbsorbUndone(h, k);
    var u := Unhash8(k, seed);
    Hash8Is(u, seed);
    FinishUndone(k);
    AbsorbOnto(h, Unfinish(k));
    hide Hash8, Finish, Unfinish, Mul64, Xor64, Mix, Unmix, Start;
  }

  /** Every word is reached from every state by a suitable block. */
  lemma AbsorbOnto(h: Word, y: Word)
    ensures Absorb(h, Unmix(Xor64(Mul64(y, INVERSE), h))) == y
  {
    var z := Mul64(y, INVERSE);
    var x := Xor64(z, h);
    MixUndone(x);
    XorSwap(h, x);
    XorTwice(z, h);
    TimesM(y);
    hide Mul64, Mix, Unmix, Xor;
  }

  /** Main result: on keys of four bytes the hash is injective, for every seed. */
  lemma FourBytesInjective(k: nat, k': nat, seed: Seed)
    requires k < 0x1_0000_0000 && k' < 0x1_0000_0000
    ensures Hash4(k, seed) == Hash4(k', seed) <==> k == k'
  {
    var key, key' := Bytes(k, 4), Bytes(k', 4);
    FourBytes();
    LittleOfBytes(k, 4);
    LittleOfBytes(k', 4);
    hide Bytes, Little, Hash;
    OnlyTailDiffers(key, key', seed);
  }

  lemma FourBytes()
    ensures Power2(8 * 4) == 0x1_0000_0000
  {
    assert Power2(8) == 256;
    PowerAdd(8, 8);
    PowerAdd(16, 16);
  }

  // ---------------------------------------------------------------- keys of any length

  lemma {:induction false} BlocksAgree(key: seq<Byte>, key': seq<Byte>, n: nat)
    requires |key| == |key'| && 8 * n <= |key| && key[..8 * n] == key'[..8 * n]
    ensures Blocks(key, n) == Blocks(key', n)
  {
    forall i | 0 <= i < n ensures Blocks(key, n)[i] == Blocks(key', n)[i] {
      assert key[8 * i..8 * i + 8] == key[..8 * n][8 * i..8 * i + 8];
      assert key'[8 * i..8 * i + 8] == key'[..8 * n][8 * i..8 * i + 8];
    }
  }

  /** Main result: keys of one length that differ at most in the tail hash differently if and only
      if they differ. */
  lemma OnlyTailDiffers(key: seq<Byte>, key': seq<Byte>, seed: Seed)
    requires |key| == |key'| && key[..|key| - |key| % 8] == key'[..|key| - |key| % 8]
    ensures Hash(key, seed) == Hash(key', seed) <==> key == key'
  {
    hide AbsorbAll, AbsorbTail, Finish, Start, ToWord, Blocks, Little;
    var n := |key| / 8;
    assert |key| - |key| % 8 == 8 * n;
    BlocksAgree(key, key', n);
    KeySplit(key);
    KeySplit(key');
    var h := AbsorbAll(Start(seed, |key|), Blocks(key, n));
    TailBytesInjective(h, Tail(key), Tail(key'));
    FinishInjective(AbsorbTail(h, Tail(key)), AbsorbTail(h, Tail(key')));
  }

  lemma KeySplit(key: seq<Byte>)
    ensures key == key[..|key| - |key| % 8] + Tail(key)
  {
  }

  /** Two keys that differ at most in the i-th block of eight bytes. */
  ghost predicate DifferInBlock(key: seq<Byte>, key': seq<Byte>, i: nat) {
    && |key| == |key'| && 8 * i + 8 <= |key|
    && key[..8 * i] == key'[..8 * i] && key[8 * i + 8..] == key'[8 * i + 8..]
  }

  lemma {:induction false} FoldDiffers(h: Word, ks: seq<Word>, ks': seq<Word>, i: nat)
    requires |ks| == |ks'| && i < |ks| && forall j :: 0 <= j < |ks| && j != i ==> ks[j] == ks'[j]
    ensures AbsorbAll(h, ks) == AbsorbAll(h, ks') <==> ks[i] == ks'[i]
  {
    var n := |ks| - 1;
    if i == n {
      assert ks[..n] == ks'[..n];
      var h1 := AbsorbAll(h, ks[..n]);
      if AbsorbAll(h, ks) == AbsorbAll(h, ks') { AbsorbInjective(h1, h1, ks[n], ks'[n]); }
    } else {
      FoldDiffers(h, ks[..n], ks'[..n], i);
      if AbsorbAll(h, ks) == AbsorbAll(h, ks') {
        AbsorbInjective(AbsorbAll(h, ks[..n]), AbsorbAll(h, ks'[..n]), ks[n], ks[n]);
      }
    }
  }

  /** Main result: keys of one length that differ at most in one block hash differently if and only
      if they differ. */
  lemma OnlyOneBlockDiffers(key: seq<Byte>, key': seq<Byte>, i: nat, seed: Seed)
    requires DifferInBlock(key, key', i)
    ensures Hash(key, seed) == Hash(key', seed) <==> key == key'
  {
    hide AbsorbAll, AbsorbTail, Finish, Start, Blocks, Little, ToWord;
    var n := |key| / 8;
    var ks, ks' := Blocks(key, n), Blocks(key', n);
    forall j | 0 <= j < n && j != i ensures ks[j] == ks'[j] { BlockSame(key, key', i, j); }
    FoldDiffers(Start(seed, |key|), ks, ks', i);
    SameTail(key, key', i);
    var h, h' := AbsorbAll(Start(seed, |key|), ks), AbsorbAll(Start(seed, |key|), ks');
    TailInjective(h, h', Tail(key));
    FinishInjective(AbsorbTail(h, Tail(key)), AbsorbTail(h', Tail(key)));
    BlockInjective(key, key', i);
  }

  lemma SameTail(key: seq<Byte>, key': seq<Byte>, i: nat)
    requires DifferInBlock(key, key', i)
    ensures Tail(key) == Tail(key')
  {
    var k := |key| - |key| % 8 - (8 * i + 8);
    assert Tail(key) == key[8 * i + 8..][k..];
    assert Tail(key') == key'[8 * i + 8..][k..];
  }

  lemma BlockInjective(key: seq<Byte>, key': seq<Byte>, i: nat)
    requires DifferInBlock(key, key', i)
    ensures ToWord(key[8 * i..8 * i + 8]) == ToWord(key'[8 * i..8 * i + 8]) <==> key == key'
  {
    var b, b' := key[8 * i..8 * i + 8], key'[8 * i..8 * i + 8];
    if ToWord(b) == ToWord(b') { LittleInjective(b, b'); }
    assert key == key[..8 * i] + b + key[8 * i + 8..];
    assert key' == key'[..8 * i] + b' + key'[8 * i + 8..];
  }

  lemma BlockSame(key: seq<Byte>, key': seq<Byte>, i: nat, j: nat)
    requires DifferInBlock(key, key', i) && j != i && 8 * j + 8 <= |key|
    ensures key[8 * j..8 * j + 8] == key'[8 * j..8 * j + 8]
  {
    if j < i {
      assert key[8 * j..8 * j + 8] == key[..8 * i][8 * j..8 * j + 8];
      assert key'[8 * j..8 * j + 8] == key'[..8 * i][8 * j..8 * j + 8];
    } else {
      var k := 8 * j - 8 * i - 8;
      assert key[8 * j..8 * j + 8] == key[8 * i + 8..][k..k + 8];
      assert key'[8 * j..8 * j + 8] == key'[8 * i + 8..][k..k + 8];
    }
  }

  /** Main result: for every key, different seeds give different hashes. */
  lemma SeedMatters(key: seq<Byte>, seed: Seed, seed': Seed)
    ensures Hash(key, seed) == Hash(key, seed') <==> seed == seed'
  {
    var x: Word := |key| * M % WORD;
    var ks := Blocks(key, |key| / 8);
    XorTwice(seed, x);
    XorTwice(seed', x);
    var h, h' := Start(seed, |key|), Start(seed', |key|);
    AbsorbAllInjective(h, h', ks);
    var g, g' := AbsorbAll(h, ks), AbsorbAll(h', ks);
    TailInjective(g, g', Tail(key));
    FinishInjective(AbsorbTail(g, Tail(key)), AbsorbTail(g', Tail(key)));
  }

  /** The member `size_t seed` as it arrives in `unsigned int seed`. */
  function Truncated(seed: Word): Seed {
    seed % 0x1_0000_0000
  }

  /** Two hash objects agree on a key, and then on all keys, exactly if the low 32 bits of their
      seeds agree. */
  lemma LowSeedMatters(key: seq<Byte>, key': seq<Byte>, seed: Word, seed': Word)
    ensures Hash(key, Truncated(seed)) == Hash(key, Truncated(seed')) <==> seed % 0x1_0000_0000 == seed' % 0x1_0000_0000
    ensures Hash(key, Truncated(seed)) == Hash(key, Truncated(seed')) ==>
      Hash(key', Truncated(seed)) == Hash(key', Truncated(seed'))
  {
    SeedMatters(key, Truncated(seed), Truncated(seed'));
  }
}
