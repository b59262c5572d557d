/** Bytes, machine words as lists of bytes, and the exclusive or of two bytes. */
module Bytes {
  import opened Bits

  type byte = b: int | 0 <= b < 256
  type word = w: int | 0 <= w < WORDS

  /** The number of 32-bit and of 64-bit words. */
  const WORDS := 0x1_0000_0000
  const LONGS := 0x1_0000_0000_0000_0000

  /** The value of `bytes` with the most significant byte first. */
  function BigEndian(bytes: seq<byte>): (v: nat) {
    if bytes == [] then 0 else 256 * BigEndian(bytes[..|bytes| - 1]) + bytes[|bytes| - 1]
  }

  /** The value of `bytes` with the least significant byte first. */
  function LittleEndian(bytes: seq<byte>): (v: nat) {
    if bytes == [] then 0 else bytes[0] + 256 * LittleEndian(bytes[1..])
  }

  /** The `n` bytes of a value, most significant first; higher bytes are dropped. */
  function ToBigEndian(v: nat, n: nat): (bytes: seq<byte>)
    ensures |bytes| == n
  {
    if n == 0 then [] else ToBigEndian(v / 256, n - 1) + [v % 256]
  }

  function ToLittleEndian(v: nat, n: nat): (bytes: seq<byte>)
    ensures |bytes| == n
  {
    if n == 0 then [] else [v % 256] + ToLittleEndian(v / 256, n - 1)
  }

  function Power256(n: nat): (p: nat)
    ensures p >= 1
  {
    if n == 0 then 1 else 256 * Power256(n - 1)
  }

  /** Byte `k` of a value, counted from the least significant one. */
  lemma {:induction false} LittleEndianAt(v: nat, n: nat, k: nat)
    requires k < n
    ensures ToLittleEndian(v, n)[k] == v / Power256(k) % 256
  {
    if k > 0 {
      LittleEndianAt(v / 256, n - 1, k - 1);
      DivideTwice(v, Power256(k - 1));
    }
  }

  lemma DivideTwice(v: nat, p: nat)
    requires p > 0
    ensures v / 256 / p == v / (256 * p)
  {
    var q, r := v / 256 / p, v / 256 % p;
    assert v / 256 == p * q + r;
    Quotient(v, 256 * p, q, v - 256 * (p * q));
  }

  lemma MultipleAtLeast(p: nat, d: int)
    ensures d >= 1 ==> p * d >= p
    ensures d <= -1 ==> p * d <= -1 * p
  {
    assert p * d == p * (d - 1) + p == p * (d + 1) - p;
  }

  lemma Quotient(v: nat, p: nat, q: nat, r: int)
    requires 0 <= r < p && v == p * q + r
    ensures v / p == q
  {
    assert p * (v / p - q) == r - v % p;
    MultipleAtLeast(p, v / p - q);
  }

  /** The bytes of several words, each with its least significant byte first. */
  function LittleWords(words: seq<word>): (bytes: seq<byte>)
    ensures |bytes| == 4 * |words|
  {
    if words == [] then [] else ToLittleEndian(words[0], 4) + LittleWords(words[1..])
  }

  lemma {:induction false} LittleWordsAt(words: seq<word>, i: nat)
    requires i < 4 * |words|
    ensures LittleWords(words)[i] == words[i / 4] / Power256(i % 4) % 256
  {
    hide ToLittleEndian, Power256;
    if i < 4 {
      LittleEndianAt(words[0], 4, i);
    } else {
      LittleWordsAt(words[1..], i - 4);
      assert (i - 4) / 4 == i / 4 - 1 && (i - 4) % 4 == i % 4;
      assert LittleWords(words)[i] == LittleWords(words[1..])[i - 4];
    }
  }

  /** The lowest byte of a number written behind another one. */
  lemma LowestByte(low: nat, high: nat, n: nat)
    requires n > 0
    ensures (low + Power256(n) * high) % 256 == low % 256
    ensures (low + Power256(n) * high) / 256 == low / 256 + Power256(n - 1) * high
  {
    var rest := Power256(n - 1) * high;
    assert Power256(n) * high == 256 * rest;
    assert (low + 256 * rest) % 256 == low % 256 && (low + 256 * rest) / 256 == low / 256 + rest;
  }

  function Reversed(bytes: seq<byte>): (r: seq<byte>)
    ensures |r| == |bytes|
  {
    seq(|bytes|, i requires 0 <= i < |bytes| => bytes[|bytes| - 1 - i])
  }

  lemma {:induction false} BigEndianRoundTrip(v: nat, n: nat)
    requires v < Power256(n)
    ensures BigEndian(ToBigEndian(v, n)) == v
  {
    if n > 0 {
      BigEndianRoundTrip(v / 256, n - 1);
      var bytes := ToBigEndian(v, n);
      assert bytes[..n - 1] == ToBigEndian(v / 256, n - 1);
    }
  }

  lemma {:induction false} ToBigEndianRoundTrip(bytes: seq<byte>)
    ensures ToBigEndian(BigEndian(bytes), |bytes|) == bytes
    ensures BigEndian(bytes) < Power256(|bytes|)
  {
    if bytes != [] {
      var init := bytes[..|bytes| - 1];
      ToBigEndianRoundTrip(init);
      assert bytes == init + [bytes[|bytes| - 1]];
    }
  }

  /** Reading the bytes in the other order is reading the reversed bytes. */
  lemma {:induction false} LittleIsReversedBig(bytes: seq<byte>)
    ensures LittleEndian(bytes) == BigEndian(Reversed(bytes))
  {
    if bytes != [] {
      LittleIsReversedBig(bytes[1..]);
      assert Reversed(bytes)[..|bytes| - 1] == Reversed(bytes[1..]);
    }
  }

  lemma {:induction false} ToLittleIsReversedBig(v: nat, n: nat)
    ensures ToLittleEndian(v, n) == Reversed(ToBigEndian(v, n))
  {
    if n > 0 {
      ToLittleIsReversedBig(v / 256, n - 1);
    }
  }

  lemma ReversedTwice(bytes: seq<byte>)
    ensures Reversed(Reversed(bytes)) == bytes
  {
  }

  /** Two numbers written one after the other are the bytes of one number, low bytes first. */
  lemma {:induction false} LittleEndianWords(low: nat, high: nat, n: nat, k: nat)
    requires low < Power256(n)
    ensures ToLittleEndian(low, n) + ToLittleEndian(high, k) == ToLittleEndian(low + Power256(n) * high, n + k)
  {
    if n > 0 {
      LittleEndianWords(low / 256, high, n - 1, k);
      LowestByte(low, high, n);
      assert ToLittleEndian(low, n) + ToLittleEndian(high, k)
          == [low % 256] + (ToLittleEndian(low / 256, n - 1) + ToLittleEndian(high, k));
    }
  }

  /** Two numbers written one after the other are the bytes of one number. */
  lemma {:induction false} BigEndianWords(low: nat, high: nat, n: nat, k: nat)
    requires low < Power256(n)
    ensures ToBigEndian(high, k) + ToBigEndian(low, n) == ToBigEndian(low + Power256(n) * high, n + k)
  {
    if n > 0 {
      BigEndianWords(low / 256, high, n - 1, k);
      LowestByte(low, high, n);
      assert ToBigEndian(high, k) + ToBigEndian(low, n)
          == (ToBigEndian(high, k) + ToBigEndian(low / 256, n - 1)) + [low % 256];
    } else {
      assert ToBigEndian(low, n) == [];
    }
  }

  // ----- exclusive or -----

  /** The exclusive or of the lowest `n` bits. */
  function XorBits(a: nat, b: nat, n: nat): nat {
    if n == 0 then 0 else 2 * XorBits(a / 2, b / 2, n - 1) + (a + b) % 2
  }

  function XorByte(a: byte, b: byte): (c: byte) {
    XorBitsBound(a, b, 8);
    assert Pow2(8) == 256;
    XorBits(a, b, 8)
  }

  lemma {:induction false} XorBitsBound(a: nat, b: nat, n: nat)
    requires n <= 8
    ensures XorBits(a, b, n) < Pow2(n)
  {
    if n > 0 {
      XorBitsBound(a / 2, b / 2, n - 1);
    }
  }

  lemma XorLowest(a: nat, b: nat, rest: nat, x: nat)
    requires x == 2 * rest + (a + b) % 2
    ensures x / 2 == rest && 2 * (a / 2) + (x + b) % 2 == a
  {
  }

  lemma {:induction false} XorBitsTwice(a: nat, b: nat, n: nat)
    requires a < Pow2(n)
    ensures XorBits(XorBits(a, b, n), b, n) == a
  {
    if n > 0 {
      XorLowest(a, b, XorBits(a / 2, b / 2, n - 1), XorBits(a, b, n));
      XorBitsTwice(a / 2, b / 2, n - 1);
    }
  }

  /** Masking a byte twice gives it back. */
  lemma XorByteTwice(a: byte, b: byte)
    ensures XorByte(XorByte(a, b), b) == a
  {
    assert Pow2(8) == 256;
    XorBitsTwice(a, b, 8);
  }
}
