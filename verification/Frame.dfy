/** Single frames of RFC 6455: an independent parser, the frames the server sends, and byte order. */
module Frame {
  import opened Bytes

  // ----- parsing a frame, section 5.2 -----

  /** A frame at the start of a stream; an empty mask means that it is not masked. */
  datatype Parsed =
    | Incomplete
    | Parsed(fin: bool, rsv: nat, opcode: nat, minimal: bool, mask: seq<byte>, data: seq<byte>, rest: seq<byte>)

  /** How many bytes extend the seven bits of payload length. */
  function ExtendedSize(b: byte): (n: nat)
    ensures n in {0, 2, 8}
  {
    if b % 128 == 126 then 2 else if b % 128 == 127 then 8 else 0
  }

  function MaskSize(b: byte): nat {
    if b >= 128 then 4 else 0
  }

  function HeaderSize(b: byte): nat {
    2 + ExtendedSize(b) + MaskSize(b)
  }

  /** The payload length in the extended bytes, or in the seven bits. */
  function PayloadLength(bytes: seq<byte>): nat
    requires |bytes| >= 2 && |bytes| >= 2 + ExtendedSize(bytes[1])
  {
    if ExtendedSize(bytes[1]) == 0 then bytes[1] % 128 else BigEndian(bytes[2..2 + ExtendedSize(bytes[1])])
  }

  /** The length is in the shortest of the three forms. */
  predicate Shortest(b: byte, n: nat) {
    if n <= 125 then b % 128 == n else if n <= 65535 then b % 128 == 126 else b % 128 == 127
  }

  function Parse(bytes: seq<byte>): Parsed {
    if |bytes| < 2 || |bytes| < HeaderSize(bytes[1]) then Incomplete
    else
      var h, n := HeaderSize(bytes[1]), PayloadLength(bytes);
      if |bytes| < h + n then Incomplete
      else Parsed(bytes[0] >= 128, bytes[0] / 16 % 8, bytes[0] % 16, Shortest(bytes[1], n),
                  bytes[h - MaskSize(bytes[1])..h], bytes[h..h + n], bytes[h + n..])
  }

  // ----- masking, section 5.3 -----

  function Masked(data: seq<byte>, mask: seq<byte>): (r: seq<byte>)
    requires |mask| == 4
    ensures |r| == |data|
  {
    seq(|data|, i requires 0 <= i < |data| => XorByte(data[i], mask[i % 4]))
  }

  /** The same masking takes the mask off again. */
  lemma MaskedTwice(data: seq<byte>, mask: seq<byte>)
    requires |mask| == 4
    ensures Masked(Masked(data, mask), mask) == data
  {
    forall i | 0 <= i < |data|
      ensures XorByte(XorByte(data[i], mask[i % 4]), mask[i % 4]) == data[i]
    {
      XorByteTwice(data[i], mask[i % 4]);
    }
  }

  // ----- the frames that the server sends -----

  const FIN_TEXT: byte := 0x81

  function Header(n: nat): (h: seq<byte>)
    ensures |h| == if n <= 125 then 2 else if n <= 65535 then 4 else 10
  {
    if n <= 125 then [FIN_TEXT, n]
    else if n <= 65535 then [FIN_TEXT, 126] + ToBigEndian(n, 2)
    else [FIN_TEXT, 127] + ToBigEndian(n, 8)
  }

  function Encoded(payload: seq<byte>): seq<byte> {
    Header(|payload|) + payload
  }

  lemma HeaderParts(n: nat, tail: seq<byte>)
    requires n < LONGS
    ensures var b := Header(n) + tail;
            && b[0] == FIN_TEXT && HeaderSize(b[1]) == |Header(n)| && MaskSize(b[1]) == 0
            && PayloadLength(b) == n && Shortest(b[1], n)
  {
    hide ToBigEndian, BigEndian;
    var b := Header(n) + tail;
    assert Power256(2) == 0x1_0000 && Power256(8) == LONGS;
    if n > 65535 {
      BigEndianRoundTrip(n, 8);
      assert b[2..10] == ToBigEndian(n, 8);
    } else if n > 125 {
      BigEndianRoundTrip(n, 2);
      assert b[2..4] == ToBigEndian(n, 2);
    }
  }

  /** The parser recovers the payload of a sent frame, with nothing left over of it. */
  lemma EncodedRoundTrip(payload: seq<byte>, rest: seq<byte>)
    requires |payload| < LONGS
    ensures Parse(Encoded(payload) + rest) == Parsed(true, 0, 1, true, [], payload, rest)
  {
    hide Header, PayloadLength, HeaderSize, MaskSize, Shortest;
    var n := |payload|;
    var b := Encoded(payload) + rest;
    assert b == Header(n) + (payload + rest);
    HeaderParts(n, payload + rest);
    var h := |Header(n)|;
    assert b[h..h + n] == payload && b[h + n..] == rest && b[h..h] == [];
  }

  /** It is the only unmasked final text frame with this payload and the shortest length form. */
  lemma EncodedUnique(bytes: seq<byte>, payload: seq<byte>)
    requires Parse(bytes) == Parsed(true, 0, 1, true, [], payload, [])
    ensures bytes == Encoded(payload)
  {
    hide ToBigEndian, BigEndian;
    var n, e := |payload|, ExtendedSize(bytes[1]);
    assert bytes[0] == FIN_TEXT;
    assert MaskSize(bytes[1]) == 0 && n == PayloadLength(bytes);
    assert bytes == bytes[..2] + bytes[2..2 + e] + payload;
    ToBigEndianRoundTrip(bytes[2..2 + e]);
    assert bytes[..2] == [FIN_TEXT, bytes[1]];
  }

  // ----- byte order -----

  /** A word of `n` bytes as it is read from memory. */
  function Loaded(little: bool, bytes: seq<byte>): nat {
    if little then LittleEndian(bytes) else BigEndian(bytes)
  }

  function Stored(little: bool, v: nat, n: nat): (bytes: seq<byte>)
    ensures |bytes| == n
  {
    if little then ToLittleEndian(v, n) else ToBigEndian(v, n)
  }

  /** htonl, ntohs and htons: the bytes in the other order on a little-endian host. */
  function Swapped(little: bool, v: nat, n: nat): nat {
    if little then BigEndian(ToLittleEndian(v, n)) else v
  }

  /** The 64-bit conversion, by two 32-bit conversions of exchanged halves. */
  function Ntohl64(little: bool, value: nat): nat {
    if little then
      var high, low := value / WORDS, value % WORDS;
      Swapped(little, low, 4) * WORDS + Swapped(little, high, 4)
    else value
  }

  lemma SwappedBytes(v: nat, n: nat)
    requires v < Power256(n)
    ensures Swapped(true, v, n) < Power256(n)
    ensures ToBigEndian(Swapped(true, v, n), n) == ToLittleEndian(v, n)
    ensures ToLittleEndian(Swapped(true, v, n), n) == ToBigEndian(v, n)
    ensures Swapped(true, Swapped(true, v, n), n) == v
  {
    hide ToBigEndian, ToLittleEndian, BigEndian, Reversed;
    ToBigEndianRoundTrip(ToLittleEndian(v, n));
    ToLittleIsReversedBig(v, n);
    ToLittleIsReversedBig(Swapped(true, v, n), n);
    ReversedTwice(ToBigEndian(v, n));
    BigEndianRoundTrip(v, n);
  }

  lemma {:induction false} BigEndianSplit(a: seq<byte>, b: seq<byte>)
    ensures BigEndian(a + b) == BigEndian(a) * Power256(|b|) + BigEndian(b)
  {
    if b == [] {
      assert a + b == a;
    } else {
      var init, z := b[..|b| - 1], b[|b| - 1];
      BigEndianSplit(a, init);
      assert (a + b)[..|a + b| - 1] == a + init;
      assert 256 * (BigEndian(a) * Power256(|init|)) == BigEndian(a) * Power256(|b|);
    }
  }

  /** On a little-endian host it reverses the eight bytes. */
  lemma Ntohl64Swaps(value: nat)
    requires value < LONGS
    ensures Ntohl64(true, value) == Swapped(true, value, 8)
  {
    hide ToLittleEndian, BigEndian;
    assert Power256(4) == WORDS;
    LittleEndianWords(value % WORDS, value / WORDS, 4, 4);
    BigEndianSplit(ToLittleEndian(value % WORDS, 4), ToLittleEndian(value / WORDS, 4));
  }

  /** The conversion is its own inverse. */
  lemma Ntohl64Involution(little: bool, value: nat)
    requires value < LONGS
    ensures Ntohl64(little, value) < LONGS && Ntohl64(little, Ntohl64(little, value)) == value
  {
    assert Power256(8) == LONGS;
    if little {
      SwappedBytes(value, 8);
      Ntohl64Swaps(value);
      Ntohl64Swaps(Swapped(true, value, 8));
    }
  }

  /** A word loaded and converted is the big-endian number in memory, on either kind of host. */
  lemma LoadedInOrder(little: bool, bytes: seq<byte>)
    ensures Swapped(little, Loaded(little, bytes), |bytes|) == BigEndian(bytes)
    ensures |bytes| == 8 ==> Ntohl64(little, Loaded(little, bytes)) == BigEndian(bytes)
  {
    hide ToLittleEndian, BigEndian, ToBigEndian;
    if little {
      LittleIsReversedBig(bytes);
      ToBigEndianRoundTrip(Reversed(bytes));
      ToLittleIsReversedBig(Loaded(true, bytes), |bytes|);
      ReversedTwice(bytes);
      assert Power256(8) == LONGS;
      if |bytes| == 8 {
        Ntohl64Swaps(Loaded(true, bytes));
      }
    }
  }

  /** A word converted and stored shows its bytes in big-endian order, on either kind of host. */
  lemma StoredInOrder(little: bool, v: nat, n: nat)
    requires v < Power256(n)
    ensures Stored(little, Swapped(little, v, n), n) == ToBigEndian(v, n)
    ensures n == 8 ==> Stored(little, Ntohl64(little, v), n) == ToBigEndian(v, n)
  {
    hide ToLittleEndian, BigEndian, ToBigEndian;
    assert Power256(8) == LONGS;
    if little {
      SwappedBytes(v, n);
      if n == 8 {
        Ntohl64Swaps(v);
      }
    }
  }
}
