/** MurmurHash64A as it runs: a loop over the blocks and a switch that falls through. */
module MurmurObject {
  import opened Arithmetic
  import opened MurmurWords
  import opened MurmurHash

  /** uint64_t(data2[j]) << (8 * j). */
  function Shifted(b: Byte, j: nat): Word
    requires j < 8
  {
    ByteFits(b, j);
    b * Power2(8 * j)
  }

  lemma ByteFits(b: Byte, j: nat)
    requires j < 8
    ensures b * Power2(8 * j) < WORD
  {
    WordIsPower();
    PowerAdd(8 * j + 8, 64 - (8 * j + 8));
    NextByte(j);
    MulGap(b, 256, Power2(8 * j));
    MulGap(0, Power2(64 - (8 * j + 8)), Power2(8 * j + 8));
  }

  /** The bytes of the tail from place j on, where they stand in the word. */
  function High(tail: seq<Byte>, j: nat): nat
    requires j <= |tail|
  {
    Little(tail[j..]) * Power2(8 * j)
  }

  /** One case of the switch adds the next lower byte. */
  lemma CaseAdds(h: Word, tail: seq<Byte>, j: nat)
    requires j < |tail| < 8
    ensures Xor(Xor(h, High(tail, j + 1)), Shifted(tail[j], j)) == Xor(h, High(tail, j))
  {
    var b, p, rest := tail[j] as nat, Power2(8 * j), Little(tail[j + 1..]);
    NextByte(j);
    assert tail[j..][1..] == tail[j + 1..];
    assert High(tail, j + 1) == rest * (256 * p) && High(tail, j) == (b + 256 * rest) * p;
    assert rest * (256 * p) + b * p == (b + 256 * rest) * p;
    assert b * p < Power2(8 * (j + 1)) by { MulGap(b, 256, p); }
    XorAdds(b * p, rest, 8 * (j + 1));
    XorAssoc(h, High(tail, j + 1), b * p);
  }

  /** What the cases down to j have made of h. */
  ghost predicate Fallen(h: Word, was: Word, tail: seq<Byte>, j: nat) {
    h == Xor(was, if j <= |tail| then High(tail, j) else 0)
  }

  lemma NothingFallen(h: Word, tail: seq<Byte>, j: nat)
    requires |tail| <= j
    ensures Fallen(h, h, tail, j)
  {
    XorZero(h);
  }

  lemma AllFallen(h: Word, was: Word, tail: seq<Byte>)
    requires |tail| < 8 && Fallen(h, was, tail, 0)
    ensures AbsorbTail(was, tail) == if |tail| > 0 then Mul64(h, M) else h
  {
    assert tail[0..] == tail;
    XorZero(was);
  }

  /** `case j + 1`: `h ^= uint64_t(data2[j]) << (8 * j)`, entered with at least j + 1 bytes. */
  method Case(h: Word, tail: seq<Byte>, j: nat, ghost was: Word) returns (h': Word)
    requires j < 7 && |tail| < 8 && Fallen(h, was, tail, j + 1)
    ensures Fallen(h', was, tail, j)
  {
    h' := h;
    if |tail| > j {
      h' := Xor64(h, Shifted(tail[j], j));
      CaseAdds(was, tail, j);
    } else {
      NothingFallen(h, tail, j);
    }
  }

  method MurmurHash64A(key: seq<Byte>, seed: Seed) returns (h: Word)
    ensures h == Hash(key, seed)
  {
    h := Xor64(seed, |key| * M % WORD);
    var data, end := 0, |key| / 8;
    while data != end
      invariant 0 <= data <= end && h == AbsorbAll(Start(seed, |key|), Blocks(key, data))
      decreases end - data
    {
      var k := ToWord(key[8 * data..8 * data + 8]);
      data := data + 1;
      k := Mul64(k, M);
      k := Shake(k);
      k := Mul64(k, M);
      h := Xor64(h, k);
      h := Mul64(h, M);
      BlocksNext(key, data);
    }
    var tail := Tail(key);
    h := Switch(h, tail);
    h := Shake(h);
    h := Mul64(h, M);
    h := Shake(h);
  }

  lemma BlocksNext(key: seq<Byte>, n: nat)
    requires 0 < n && 8 * n <= |key|
    ensures Blocks(key, n)[..n - 1] == Blocks(key, n - 1)
  {
  }

  /** `switch (len & 7)`, every case falling through to the next. */
  method Switch(was: Word, tail: seq<Byte>) returns (h: Word)
    requires |tail| < 8
    ensures h == AbsorbTail(was, tail)
  {
    hide Fallen, AbsorbTail;
    NothingFallen(was, tail, 7);
    h := Case(was, tail, 6, was);
    h := Case(h, tail, 5, was);
    h := Case(h, tail, 4, was);
    h := Case(h, tail, 3, was);
    h := Case(h, tail, 2, was);
    h := Case(h, tail, 1, was);
    h := Case(h, tail, 0, was);
    AllFallen(h, was, tail);
    if |tail| > 0 { h := Mul64(h, M); }
  }
}
