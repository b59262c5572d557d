/** The streaming SHA-1 of FIPS PUB 180-1, with the function of one block left open. */
module Sha1 {
  import opened Bytes
  import opened Digest

  type Registers = r: seq<word> | |r| == 5 witness [0, 0, 0, 0, 0]

  const INITIAL: Registers := [0x67452301, 0xEFCDAB89, 0x98BADCFE, 0x10325476, 0xC3D2E1F0]

  /** Section 4: the length in bits, high-order bytes first. */
  function PaddedMessage(m: seq<byte>): (p: seq<byte>)
    ensures |p| % BLOCK == 0
  {
    Padded(m, ToBigEndian(8 * |m|, 8))
  }

  /** A list of bytes is the padded message of a message below 2^61 bytes exactly when it has the shape of section 4,
      with the length in its last eight bytes. */
  lemma PaddedMessageExact(m: seq<byte>, p: seq<byte>)
    requires 8 * |m| < LONGS
    ensures p == PaddedMessage(m) <==>
              exists length :: |length| == 8 && IsPadded(m, p, length) && BigEndian(length) == 8 * |m|
  {
    hide IsPadded, Padded, ToBigEndian, BigEndian;
    assert Power256(8) == LONGS;
    BigEndianRoundTrip(8 * |m|, 8);
    PaddedExact(m, p, ToBigEndian(8 * |m|, 8));
    if length :| |length| == 8 && IsPadded(m, p, length) && BigEndian(length) == 8 * |m| {
      ToBigEndianRoundTrip(length);
    }
  }

  /** Section 7: the digest of a whole message at once. */
  function DigestOf(f: Compression<Registers>, m: seq<byte>): Registers {
    Absorb(f, INITIAL, PaddedMessage(m))
  }

  class Context {
    const process: Compression<Registers>
    var Message_Digest: Registers
    var Length_Low: word
    var Length_High: word
    const Message_Block: array<byte>
    var Message_Block_Index: nat
    var Computed: bool
    var Corrupted: bool

    ghost predicate Valid() {
      Message_Block.Length == BLOCK
    }

    /** The state after exactly the message `m` has been put in. */
    ghost predicate Holds(m: seq<byte>)
      reads this, Message_Block
    {
      && Valid() && !Computed && !Corrupted
      && Length_Low + WORDS * Length_High == 8 * |m|
      && Message_Digest == Absorbed(process, INITIAL, m)
      && Message_Block_Index == |Tail(m)|
      && Message_Block[..Message_Block_Index] == Tail(m)
    }

    constructor (f: Compression<Registers>)
      ensures process == f && Holds([]) && fresh(Message_Block)
    {
      hide Absorbed, Tail;
      process := f;
      Message_Block := new byte[BLOCK](_ => 0);
      Message_Digest, Length_Low, Length_High, Message_Block_Index := INITIAL, 0, 0, 0;
      Computed, Corrupted := false, false;
      NothingAbsorbed(f, INITIAL);
    }

    method Reset()
      requires Valid()
      modifies this
      ensures Holds([])
    {
      hide Absorbed, Tail;
      NothingAbsorbed(process, INITIAL);
      Length_Low, Length_High, Message_Block_Index := 0, 0, 0;
      Message_Digest := INITIAL;
      Computed, Corrupted := false, false;
    }

    method ProcessMessageBlock()
      requires Valid()
      modifies `Message_Digest, `Message_Block_Index
      ensures Message_Digest == process(old(Message_Digest), Message_Block[..]) && Message_Block_Index == 0
    {
      Message_Digest := process(Message_Digest, Message_Block[..]);
      Message_Block_Index := 0;
    }

    /** Counts eight more bits; a carry out of the high word means that the message is too long. */
    method CountByte(ghost n: nat)
      requires Length_Low + WORDS * Length_High == 8 * n && !Corrupted
      modifies `Length_Low, `Length_High, `Corrupted
      ensures Corrupted <==> 8 * (n + 1) >= LONGS
      ensures !Corrupted ==> Length_Low + WORDS * Length_High == 8 * (n + 1)
    {
      Length_Low := (Length_Low + 8) % WORDS;
      if Length_Low == 0 {
        Length_High := (Length_High + 1) % WORDS;
        if Length_High == 0 {
          Corrupted := true;
        }
      }
    }

    /** One more byte of the message. */
    method PutByte(b: byte, ghost m: seq<byte>)
      requires Holds(m)
      modifies this, Message_Block
      ensures Valid() && !Computed && Message_Block_Index < BLOCK
      ensures Corrupted <==> 8 * (|m| + 1) >= LONGS
      ensures !Corrupted ==> Holds(m + [b])
    {
      hide Absorbed, Tail;
      Message_Block[Message_Block_Index] := b;
      Message_Block_Index := Message_Block_Index + 1;
      assert Message_Block[..Message_Block_Index] == Tail(m) + [b];
      CountByte(|m|);
      if Message_Block_Index == 64 {
        TailFills(process, INITIAL, m, [b]);
        assert Message_Block[..] == Tail(m) + [b];
        ProcessMessageBlock();
      } else {
        TailGrows(process, INITIAL, m, [b]);
      }
    }

    /** The next part of the message. Input after the result, or beyond 2^64 bits, corrupts for good. */
    method Input(data: seq<byte>, ghost m: seq<byte>)
      requires Valid() && (!Computed && !Corrupted ==> Holds(m))
      modifies this, Message_Block
      ensures data == [] || old(!Computed && !Corrupted) ==> Computed == old(Computed)
      ensures data == [] && old(Computed || Corrupted) ==>
                Corrupted == old(Corrupted) && Message_Digest == old(Message_Digest)
      ensures data != [] && old(Computed || Corrupted) ==> Corrupted
      ensures old(!Computed && !Corrupted) ==> (Corrupted <==> 8 * |m + data| >= LONGS)
      ensures old(!Computed && !Corrupted) && !Corrupted ==> Holds(m + data)
    {
      hide Absorbed, Tail;
      if data == [] {
        assert m + data == m;
        return;
      }
      if Computed || Corrupted {
        Corrupted := true;
        return;
      }
      var i := 0;
      assert m + data[..0] == m;
      while i < |data| && !Corrupted
        invariant i <= |data| && Valid() && !Computed
        invariant Corrupted <==> 8 * (|m| + i) >= LONGS
        invariant !Corrupted ==> Holds(m + data[..i])
        decreases |data| - i
      {
        assert m + data[..i + 1] == m + data[..i] + [data[i]];
        PutByte(data[i], m + data[..i]);
        i := i + 1;
      }
      if !Corrupted {
        assert data[..i] == data;
      }
    }

    /** Fills the block with zeros up to position `n`. */
    method FillZeros(n: nat)
      requires Valid() && Message_Block_Index <= n <= BLOCK
      modifies `Message_Block_Index, Message_Block
      ensures Message_Block_Index == n
      ensures Message_Block[..n] == old(Message_Block[..Message_Block_Index]) + Filled(n - old(Message_Block_Index))
    {
      ghost var start, before := Message_Block_Index, Message_Block[..Message_Block_Index];
      while Message_Block_Index < n
        invariant start <= Message_Block_Index <= n
        invariant Message_Block[..Message_Block_Index] == before + Filled(Message_Block_Index - start)
      {
        Message_Block[Message_Block_Index] := 0;
        Message_Block_Index := Message_Block_Index + 1;
      }
    }

    method PutMarker()
      requires Valid() && Message_Block_Index < BLOCK
      modifies `Message_Block_Index, Message_Block
      ensures Message_Block_Index == old(Message_Block_Index) + 1
      ensures Message_Block[..Message_Block_Index] == old(Message_Block[..Message_Block_Index]) + [0x80]
    {
      Message_Block[Message_Block_Index] := 0x80;
      Message_Block_Index := Message_Block_Index + 1;
    }

    /** The marker and the zeros, in this block or over into the next one. */
    method PadToLength(ghost m: seq<byte>)
      requires Holds(m)
      modifies `Message_Digest, `Message_Block_Index, Message_Block
      ensures Message_Block_Index == 56
      ensures var p := m + [0x80] + Filled(Zeros(|m|));
              Message_Digest == Absorbed(process, INITIAL, p) && Message_Block[..56] == Tail(p) && |p| % BLOCK == 56
    {
      hide Absorbed, Tail;
      ghost var marker := [0x80];
      ghost var r := |Tail(m)|;
      if Message_Block_Index > 55 {
        PutMarker();
        FillZeros(64);
        assert Message_Block[..64] == Message_Block[..];
        assert Message_Block[..] == Tail(m) + (marker + Filled(63 - r));
        TailFills(process, INITIAL, m, marker + Filled(63 - r));
        ProcessMessageBlock();
        FillZeros(56);
        ghost var first := m + (marker + Filled(63 - r));
        TailGrows(process, INITIAL, first, Filled(56));
        assert m + marker + Filled(Zeros(|m|)) == first + Filled(56);
        assert Message_Block[..56] == [] + Filled(56);
      } else {
        PutMarker();
        FillZeros(56);
        TailGrows(process, INITIAL, m, marker + Filled(55 - r));
        assert Message_Block[..56] == Tail(m) + (marker + Filled(55 - r));
        assert m + marker + Filled(Zeros(|m|)) == m + (marker + Filled(55 - r));
      }
    }

    /** The length as the last eight bytes of the block. */
    method StoreLength()
      requires Valid()
      modifies Message_Block
      ensures Message_Block[..56] == old(Message_Block[..56])
      ensures Message_Block[56..] == ToBigEndian(Length_Low + WORDS * Length_High, 8)
    {
      hide ToBigEndian;
      var high, low := Length_High, Length_Low;
      Message_Block[56] := high / 0x100_0000 % 256;
      Message_Block[57] := high / 0x1_0000 % 256;
      Message_Block[58] := high / 0x100 % 256;
      Message_Block[59] := high % 256;
      Message_Block[60] := low / 0x100_0000 % 256;
      Message_Block[61] := low / 0x1_0000 % 256;
      Message_Block[62] := low / 0x100 % 256;
      Message_Block[63] := low % 256;
      LengthBytes(high, low);
    }

    method PadMessage(ghost m: seq<byte>)
      requires Holds(m)
      modifies `Message_Digest, `Message_Block_Index, Message_Block
      ensures Message_Digest == DigestOf(process, m)
    {
      hide Absorbed, Tail, Absorb, ToBigEndian;
      PadToLength(m);
      StoreLength();
      ghost var p, length := m + [0x80] + Filled(Zeros(|m|)), ToBigEndian(8 * |m|, 8);
      assert Message_Block[..] == Tail(p) + length;
      TailFills(process, INITIAL, p, length);
      ProcessMessageBlock();
      WholeMessage(process, INITIAL, PaddedMessage(m));
    }

    /** The digest is that of the whole message, however it was cut; asking again changes nothing. */
    method Result(ghost m: seq<byte>) returns (ok: bool)
      requires Valid() && (!Computed && !Corrupted ==> Holds(m))
      modifies this, Message_Block
      ensures ok <==> !old(Corrupted)
      ensures Corrupted == old(Corrupted) && (ok ==> Computed)
      ensures old(!Computed && !Corrupted) ==> Message_Digest == DigestOf(process, m)
      ensures old(Computed || Corrupted) ==> Message_Digest == old(Message_Digest) && Computed == old(Computed)
    {
      if Corrupted {
        return false;
      }
      if !Computed {
        PadMessage(m);
        Computed := true;
      }
      ok := true;
    }
  }

  /** The eight stored bytes are the length, most significant byte first. */
  lemma LengthBytes(high: word, low: word)
    ensures ToBigEndian(low + WORDS * high, 8)
         == [high / 0x100_0000 % 256, high / 0x1_0000 % 256, high / 0x100 % 256, high % 256,
             low / 0x100_0000 % 256, low / 0x1_0000 % 256, low / 0x100 % 256, low % 256]
  {
    hide ToBigEndian;
    BigEndianWord(high);
    BigEndianWord(low);
    BigEndianWords(low, high, 4, 4);
    assert Power256(4) == WORDS;
  }

  lemma BigEndianWord(w: word)
    ensures ToBigEndian(w, 4) == [w / 0x100_0000 % 256, w / 0x1_0000 % 256, w / 0x100 % 256, w % 256]
  {
    DivideTwice(w, 256);
    DivideTwice(w, 0x1_0000);
  }

  /** No two messages below 2^61 bytes have the same padded message. */
  lemma PaddedMessageInjective(m: seq<byte>, m': seq<byte>)
    requires 8 * |m| < LONGS && 8 * |m'| < LONGS && PaddedMessage(m) == PaddedMessage(m')
    ensures m == m'
  {
    var n, n' := 8 * |m|, 8 * |m'|;
    assert Power256(8) == LONGS;
    BigEndianRoundTrip(n, 8);
    BigEndianRoundTrip(n', 8);
    PaddedInjective(m, m', ToBigEndian(n, 8), ToBigEndian(n', 8));
  }
}
