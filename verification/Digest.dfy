/** What MD5 and SHA-1 share: folding a compression step over blocks of 64 bytes, and padding. */
module Digest {
  import opened Bytes

  const BLOCK := 64

  /** One compression step; its inside is not part of this model. */
  type Compression<!S> = (S, seq<byte>) -> S

  function Absorb<S>(f: Compression<S>, s: S, data: seq<byte>): S
    requires |data| % BLOCK == 0
  {
    if data == [] then s else Absorb(f, f(s, data[..BLOCK]), data[BLOCK..])
  }

  lemma {:induction false} AbsorbAppend<S>(f: Compression<S>, s: S, a: seq<byte>, b: seq<byte>)
    requires |a| % BLOCK == 0 && |b| % BLOCK == 0
    ensures Absorb(f, s, a + b) == Absorb(f, Absorb(f, s, a), b)
  {
    if a == [] {
      assert a + b == b;
    } else {
      AbsorbAppend(f, f(s, a[..BLOCK]), a[BLOCK..], b);
      assert (a + b)[..BLOCK] == a[..BLOCK] && (a + b)[BLOCK..] == a[BLOCK..] + b;
    }
  }

  /** The number of bytes of a message that fill whole blocks. */
  function Whole(m: seq<byte>): nat {
    |m| - |m| % BLOCK
  }

  /** The state after the whole blocks of a message. */
  function Absorbed<S>(f: Compression<S>, s: S, m: seq<byte>): S {
    Absorb(f, s, m[..Whole(m)])
  }

  /** The bytes of a message that are still waiting for their block to fill up. */
  function Tail(m: seq<byte>): (t: seq<byte>)
    ensures |t| == |m| % BLOCK
  {
    m[Whole(m)..]
  }

  lemma NothingAbsorbed<S>(f: Compression<S>, s: S)
    ensures Tail([]) == [] && Absorbed(f, s, []) == s
  {
    assert Absorb(f, s, []) == s;
  }

  /** Bytes that do not fill the open block only lengthen the tail. */
  lemma TailGrows<S>(f: Compression<S>, s: S, m: seq<byte>, data: seq<byte>)
    requires |Tail(m)| + |data| < BLOCK
    ensures Tail(m + data) == Tail(m) + data
    ensures Absorbed(f, s, m + data) == Absorbed(f, s, m)
  {
    WholeSame(|m|, |data|);
    assert (m + data)[..Whole(m)] == m[..Whole(m)];
  }

  lemma WholeSame(n: nat, k: nat)
    requires n % BLOCK + k < BLOCK
    ensures n + k - (n + k) % BLOCK == n - n % BLOCK
  {
  }

  /** Bytes that just fill the open block are absorbed with the tail as one block. */
  lemma TailFills<S>(f: Compression<S>, s: S, m: seq<byte>, data: seq<byte>)
    requires |Tail(m)| + |data| == BLOCK
    ensures Tail(m + data) == []
    ensures Absorbed(f, s, m + data) == f(Absorbed(f, s, m), Tail(m) + data)
  {
    var all, w := m + data, Whole(m);
    WholeNext(|m|, |data|);
    AbsorbAppend(f, s, m[..w], Tail(m) + data);
    assert all[..Whole(all)] == m[..w] + (Tail(m) + data);
    AbsorbOne(f, Absorbed(f, s, m), Tail(m) + data);
  }

  lemma WholeNext(n: nat, k: nat)
    requires n % BLOCK + k == BLOCK
    ensures (n + k) % BLOCK == 0
  {
  }

  lemma AbsorbOne<S>(f: Compression<S>, s: S, block: seq<byte>)
    requires |block| == BLOCK
    ensures Absorb(f, s, block) == f(s, block)
  {
    assert block[..BLOCK] == block && block[BLOCK..] == [];
  }

  /** A block appended to a message without a tail is absorbed as it is. */
  lemma BlockAppended<S>(f: Compression<S>, s: S, m: seq<byte>, block: seq<byte>)
    requires Tail(m) == [] && |block| == BLOCK
    ensures Tail(m + block) == []
    ensures Absorbed(f, s, m + block) == f(Absorbed(f, s, m), block)
  {
    assert [] + block == block;
    TailFills(f, s, m, block);
  }

  /** A message of whole blocks is absorbed completely. */
  lemma WholeMessage<S>(f: Compression<S>, s: S, p: seq<byte>)
    requires |p| % BLOCK == 0
    ensures Absorbed(f, s, p) == Absorb(f, s, p)
  {
    assert p[..|p|] == p;
  }

  // ----- padding -----

  /** How many zero bytes follow the marker 0x80, so that eight bytes of length end a block. */
  function Zeros(n: nat): (k: nat) {
    (119 - n % BLOCK) % BLOCK
  }

  /** It is the least number that does. */
  lemma ZerosIsLeast(n: nat, k: nat)
    ensures (n + 1 + Zeros(n) + 8) % BLOCK == 0
    ensures (n + 1 + k + 8) % BLOCK == 0 ==> Zeros(n) <= k
  {
  }

  function Filled(n: nat): (z: seq<byte>)
    ensures |z| == n
  {
    seq(n, _ => 0)
  }

  /** The whole padded message, with `length` the eight bytes that tell its length in bits. */
  function Padded(m: seq<byte>, length: seq<byte>): (p: seq<byte>)
    requires |length| == 8
    ensures |p| % BLOCK == 0
  {
    ZerosIsLeast(|m|, 0);
    m + [0x80] + Filled(Zeros(|m|)) + length
  }

  /** Padding loses nothing: the padded message determines the message. */
  lemma PaddedInjective(m: seq<byte>, m': seq<byte>, length: seq<byte>, length': seq<byte>)
    requires |length| == 8 && |length'| == 8 && (length == length' ==> |m| == |m'|)
    requires Padded(m, length) == Padded(m', length')
    ensures m == m'
  {
    var p, p' := Padded(m, length), Padded(m', length');
    assert p[|p| - 8..] == length && p'[|p'| - 8..] == length';
    assert p[..|m|] == m && p'[..|m'|] == m';
  }

  /** Padding keeps the message in front and ends a block with the length; in between there is a single marker bit and
      as few zero bytes as possible. */
  ghost predicate IsPadded(m: seq<byte>, p: seq<byte>, length: seq<byte>) {
    && |p| % 64 == 0 && |m| + 9 <= |p| < |m| + 9 + 64
    && p[..|m|] == m && p[|m|] == 128 && (forall i :: |m| < i < |p| - 8 ==> p[i] == 0)
    && p[|p| - 8..] == length
  }

  /** There is one such message only, and it is the padded one. */
  lemma PaddedExact(m: seq<byte>, p: seq<byte>, length: seq<byte>)
    requires |length| == 8
    ensures IsPadded(m, p, length) <==> p == Padded(m, length)
  {
    var q := Padded(m, length);
    ZerosIsLeast(|m|, 0);
    assert IsPadded(m, q, length);
    if IsPadded(m, p, length) {
      SameLength(|p|, |q|, |m| + 9);
      forall i | 0 <= i < |q|
        ensures p[i] == q[i]
      {
        if i < |m| {
          assert p[i] == p[..|m|][i];
        } else if i >= |q| - 8 {
          assert p[i] == p[|p| - 8..][i - (|q| - 8)];
        }
      }
    }
  }

  lemma SameLength(a: nat, b: nat, least: nat)
    requires a % 64 == 0 && b % 64 == 0 && least <= a < least + 64 && least <= b < least + 64
    ensures a == b
  {
  }
}
