/** The table's default hash: shift-and-xor over the bytes of a key in one
    machine word of any width, reduced modulo the table size.  Words and bytes
    are bit sequences, least significant bit first. */
module KeyHash {
  type Byte = b: seq<bool> | |b| == 8 witness seq(8, _ => false)
  type Key = seq<Byte>
  type Word = seq<bool>

  const WORD_BITS: nat := 64

  function Zero(width: nat): (w: Word)
    ensures |w| == width
  {
    seq(width, _ => false)
  }

  function Widen(b: Byte, width: nat): (w: Word)
    requires width >= 8
    ensures |w| == width
  {
    b + Zero(width - 8)
  }

  /** One left shift inside the word: the top bit is lost. */
  function Shl(w: Word): (r: Word)
    ensures |r| == |w|
  {
    if w == [] then [] else [false] + w[..|w| - 1]
  }

  function Xor(a: Word, b: Word): (r: Word)
    requires |a| == |b|
    ensures |r| == |a|
  {
    seq(|a|, i requires 0 <= i < |a| => a[i] != b[i])
  }

  /** The accumulator of the byte loop, started at `h`. */
  function Fold(h: Word, key: Key): (r: Word)
    requires |h| >= 8
    ensures |r| == |h|
    decreases |key|
  {
    if key == [] then h else Fold(Xor(Shl(h), Widen(key[0], |h|)), key[1..])
  }

  function RawHash(key: Key, width: nat): (r: Word)
    requires width >= 8
    ensures |r| == width
  {
    Fold(Zero(width), key)
  }

  function ToNat(w: Word): nat {
    if w == [] then 0 else (if w[0] then 1 else 0) + 2 * ToNat(w[1..])
  }

  function Index(key: Key, size: nat): (index: nat)
    requires size > 0
    ensures index < size
  {
    ToNat(RawHash(key, WORD_BITS)) % size
  }

  /** The loop of `ht_hash_bytes`. */
  method HashBytes(key: Key, size: nat) returns (index: nat)
    requires size > 0
    ensures index == Index(key, size)
    ensures index < size
  {
    var hash := Zero(WORD_BITS);
    var sample := 0;
    while sample < |key|
      invariant 0 <= sample <= |key|
      invariant |hash| == WORD_BITS
      invariant Fold(hash, key[sample..]) == RawHash(key, WORD_BITS)
    {
      hash := Shl(hash);
      hash := Xor(hash, Widen(key[sample], WORD_BITS));
      sample := sample + 1;
    }
    index := ToNat(hash) % size;
  }

  /** Bytewise exclusive or of two keys of one length. */
  function XorKeys(a: Key, b: Key): (c: Key)
    requires |a| == |b|
    ensures |c| == |a|
  {
    seq(|a|, i requires 0 <= i < |a| => Xor(a[i], b[i]))
  }

  lemma XorStep(g: Word, h: Word, x: Byte, y: Byte)
    requires |g| == |h| >= 8
    ensures Xor(Shl(Xor(g, h)), Widen(Xor(x, y), |g|))
         == Xor(Xor(Shl(g), Widen(x, |g|)), Xor(Shl(h), Widen(y, |g|)))
  {
  }

  lemma {:induction false} FoldXor(g: Word, h: Word, a: Key, b: Key)
    requires |a| == |b| && |g| == |h| >= 8
    ensures Fold(Xor(g, h), XorKeys(a, b)) == Xor(Fold(g, a), Fold(h, b))
    decreases |a|
  {
    if a != [] {
      XorStep(g, h, a[0], b[0]);
      assert XorKeys(a, b)[1..] == XorKeys(a[1..], b[1..]);
      FoldXor(Xor(Shl(g), Widen(a[0], |g|)), Xor(Shl(h), Widen(b[0], |g|)), a[1..], b[1..]);
    }
  }

  /** Before the modulus, hashing is linear over exclusive or, in words of any width. */
  lemma HashIsLinear(a: Key, b: Key, width: nat)
    requires |a| == |b| && width >= 8
    ensures RawHash(XorKeys(a, b), width) == Xor(RawHash(a, width), RawHash(b, width))
  {
    assert Xor(Zero(width), Zero(width)) == Zero(width);
    FoldXor(Zero(width), Zero(width), a, b);
  }

  lemma {:induction false} FoldConcat(h: Word, a: Key, b: Key)
    requires |h| >= 8
    ensures Fold(h, a + b) == Fold(Fold(h, a), b)
    decreases |a|
  {
    if a == [] {
      assert a + b == b;
    } else {
      assert (a + b)[1..] == a[1..] + b;
      FoldConcat(Xor(Shl(h), Widen(a[0], |h|)), a[1..], b);
    }
  }

  /** Two accumulators whose lowest `n` bits agree. */
  ghost predicate AgreeBelow(g: Word, h: Word, n: nat) {
    |g| == |h| && forall i :: 0 <= i < n && i < |g| ==> g[i] == h[i]
  }

  lemma {:induction false} FoldForgets(g: Word, h: Word, n: nat, key: Key)
    requires |g| >= 8 && AgreeBelow(g, h, n)
    ensures AgreeBelow(Fold(g, key), Fold(h, key), n + |key|)
    decreases |key|
  {
    if key != [] {
      FoldForgets(Xor(Shl(g), Widen(key[0], |g|)), Xor(Shl(h), Widen(key[0], |h|)), n + 1, key[1..]);
    }
  }

  /** Only the last `width` bytes reach the hash. */
  lemma HashSeesLastWord(prefix: Key, tail: Key, width: nat)
    requires |tail| >= width >= 8
    ensures RawHash(prefix + tail, width) == RawHash(tail, width)
  {
    FoldConcat(Zero(width), prefix, tail);
    FoldForgets(Fold(Zero(width), prefix), Zero(width), 0, tail);
  }

  /** Bit `i` of the hash, byte by byte from the last: each byte counts one place higher. */
  function HashBit(key: Key, i: int): bool {
    if key == [] || i < 0 then false
    else (i < 8 && key[|key| - 1][i]) != HashBit(key[..|key| - 1], i - 1)
  }

  /** Each bit of the hash is the exclusive or of one bit of each of the last bytes: bit i of
      the last byte, bit i - 1 of the one before, and so on. */
  lemma {:induction false} HashBits(key: Key, width: nat, i: nat)
    requires 8 <= width && i < width
    ensures RawHash(key, width)[i] == HashBit(key, i)
  {
    if key != [] {
      var n := |key| - 1;
      assert key == key[..n] + [key[n]];
      FoldConcat(Zero(width), key[..n], [key[n]]);
      assert [key[n]][1..] == [];
      var h := RawHash(key[..n], width);
      assert Fold(h, [key[n]]) == Xor(Shl(h), Widen(key[n], width)) by {
        assert Fold(Xor(Shl(h), Widen(key[n], width)), []) == Xor(Shl(h), Widen(key[n], width));
      }
      assert Widen(key[n], width)[i] == (i < 8 && key[n][i]);
      if i > 0 {
        HashBits(key[..n], width, i - 1);
      }
    }
  }

  function Power2(n: nat): nat {
    if n == 0 then 1 else 2 * Power2(n - 1)
  }

  /** Bit `|w|` weighs two to the `|w|`. */
  lemma {:induction false} ToNatWeighs(w: Word, b: bool)
    ensures ToNat(w + [b]) == ToNat(w) + if b then Power2(|w|) else 0
    ensures ToNat(w) < Power2(|w|)
  {
    if w == [] {
      assert w + [b] == [b] && [b][1..] == [];
    } else {
      assert (w + [b])[0] == w[0] && (w + [b])[1..] == w[1..] + [b];
      ToNatWeighs(w[1..], b);
    }
  }

  /** A key of one byte hashes to that byte, modulo the table's size; of two bytes to the
      exclusive or of the last and the doubled first. */
  lemma ShortKeys(a: Byte, b: Byte, size: nat)
    requires size > 0
    ensures RawHash([b], WORD_BITS) == Widen(b, WORD_BITS)
    ensures RawHash([a, b], WORD_BITS) == Xor(Shl(Widen(a, WORD_BITS)), Widen(b, WORD_BITS))
    ensures Index([b], size) == ToNat(Widen(b, WORD_BITS)) % size
  {
    var zero := Zero(WORD_BITS);
    assert [b][1..] == [] && [a, b][1..] == [b];
    assert Shl(zero) == zero;
    assert Xor(zero, Widen(b, WORD_BITS)) == Widen(b, WORD_BITS);
    assert Xor(zero, Widen(a, WORD_BITS)) == Widen(a, WORD_BITS);
    assert Fold(Widen(b, WORD_BITS), []) == Widen(b, WORD_BITS);
    var two := Xor(Shl(Widen(a, WORD_BITS)), Widen(b, WORD_BITS));
    assert Fold(two, []) == two;
    assert Fold(Widen(a, WORD_BITS), [b]) == two;
  }
}
