/** The streaming MD5 of RFC 1321, with the compression of one block left open. */
module Md5 {
  import opened Bytes
  import opened Digest

  type Registers = r: seq<word> | |r| == 4 witness [0, 0, 0, 0]
  type Count = c: seq<word> | |c| == 2 witness [0, 0]

  const INITIAL: Registers := [0x67452301, 0xefcdab89, 0x98badcfe, 0x10325476]

  /** Sections 3.1 and 3.2: the length in bits, modulo 2^64, low-order bytes first. */
  function PaddedMessage(m: seq<byte>): (p: seq<byte>)
    ensures |p| % BLOCK == 0
  {
    Padded(m, ToLittleEndian(8 * |m| % LONGS, 8))
  }

  /** Section 3.2: the last eight bytes are the length in bits modulo 2^64. */
  lemma PaddedLength(m: seq<byte>)
    ensures LittleEndian(ToLittleEndian(8 * |m| % LONGS, 8)) == 8 * |m| % LONGS
  {
    var v := 8 * |m| % LONGS;
    assert Power256(8) == LONGS;
    ToLittleIsReversedBig(v, 8);
    LittleIsReversedBig(ToLittleEndian(v, 8));
    ReversedTwice(ToBigEndian(v, 8));
    BigEndianRoundTrip(v, 8);
  }

  /** A list of bytes is the padded message exactly when it has the shape of sections 3.1 and 3.2. */
  lemma PaddedMessageExact(m: seq<byte>, p: seq<byte>)
    ensures p == PaddedMessage(m) <==>
              exists length :: |length| == 8 && IsPadded(m, p, length) && LittleEndian(length) == 8 * |m| % LONGS
  {
    hide IsPadded, Padded, ToLittleEndian, LittleEndian;
    var mine := ToLittleEndian(8 * |m| % LONGS, 8);
    PaddedLength(m);
    PaddedExact(m, p, mine);
    if length :| |length| == 8 && IsPadded(m, p, length) && LittleEndian(length) == 8 * |m| % LONGS {
      SameLittle(length, mine);
    }
  }

  lemma {:induction false} SameLittle(a: seq<byte>, b: seq<byte>)
    requires |a| == |b| && LittleEndian(a) == LittleEndian(b)
    ensures a == b
  {
    if a != [] {
      SameLittle(a[1..], b[1..]);
      assert a == [a[0]] + a[1..] && b == [b[0]] + b[1..];
    }
  }

  /** Section 3.3: the initial registers, low-order bytes first. */
  lemma InitialBytes()
    ensures Output(INITIAL) == [0x01, 0x23, 0x45, 0x67, 0x89, 0xab, 0xcd, 0xef,
                                0xfe, 0xdc, 0xba, 0x98, 0x76, 0x54, 0x32, 0x10]
  {
    hide ToLittleEndian, LittleWords;
    WordBytesOf(INITIAL[0]);
    WordBytesOf(INITIAL[1]);
    WordBytesOf(INITIAL[2]);
    WordBytesOf(INITIAL[3]);
    FourWords(INITIAL);
  }

  lemma FourWords(r: Registers)
    ensures LittleWords(r) == ToLittleEndian(r[0], 4) + ToLittleEndian(r[1], 4)
                              + ToLittleEndian(r[2], 4) + ToLittleEndian(r[3], 4)
  {
    hide ToLittleEndian;
    assert LittleWords(r[2..]) == ToLittleEndian(r[2], 4) + ToLittleEndian(r[3], 4);
    assert LittleWords(r[1..]) == ToLittleEndian(r[1], 4) + LittleWords(r[2..]);
  }

  lemma WordBytesOf(w: word)
    ensures ToLittleEndian(w, 4) == [w % 256, w / 256 % 256, w / 0x1_0000 % 256, w / 0x100_0000 % 256]
  {
    hide ToLittleEndian;
    assert Power256(3) == 0x100_0000;
    LittleEndianAt(w, 4, 0);
    LittleEndianAt(w, 4, 1);
    LittleEndianAt(w, 4, 2);
    LittleEndianAt(w, 4, 3);
  }

  /** Section 3.5: the registers, low-order bytes first. */
  function Output(r: Registers): (d: seq<byte>)
    ensures |d| == 16
  {
    LittleWords(r)
  }

  /** The digest of a whole message at once. */
  function DigestOf(f: Compression<Registers>, m: seq<byte>): seq<byte> {
    Output(Absorb(f, INITIAL, PaddedMessage(m)))
  }

  /** The two words that count the bits of `n` bytes. */
  predicate Counts(count: Count, n: nat) {
    count[0] + WORDS * count[1] == 8 * n % LONGS
  }

  /** The addition with a carry detected by wrap-around. */
  lemma CountAdds(count: Count, n: nat, k: nat)
    requires Counts(count, n) && k < 0x1000_0000
    ensures var low := (count[0] + 8 * k) % WORDS;
            Counts([low, (count[1] + if low < 8 * k then 1 else 0) % WORDS], n + k)
  {
    var low := (count[0] + 8 * k) % WORDS;
    var carry := if count[0] + 8 * k >= WORDS then 1 else 0;
    assert low == count[0] + 8 * k - WORDS * carry;
    var high := (count[1] + carry) % WORDS;
    var wrap := if count[1] + carry == WORDS then 1 else 0;
    assert high == count[1] + carry - WORDS * wrap;
    assert low + WORDS * high == (8 * n % LONGS) + 8 * k - LONGS * wrap;
    ModuloAdds(8 * n, 8 * k, wrap, low + WORDS * high);
  }

  lemma ModuloAdds(a: nat, b: nat, wrap: int, r: nat)
    requires r == a % LONGS + b - LONGS * wrap && r < LONGS
    ensures r == (a + b) % LONGS
  {
    assert a + b == r + LONGS * (a / LONGS + wrap);
    Remainder(a + b, a / LONGS + wrap, r);
  }

  lemma Remainder(v: int, q: int, r: nat)
    requires v == r + LONGS * q && r < LONGS
    ensures v % LONGS == r
  {
  }

  /** The low word alone gives the number of bytes in the open block. */
  lemma OffsetIsTail(count: Count, m: seq<byte>)
    requires Counts(count, |m|)
    ensures count[0] / 8 % BLOCK == |Tail(m)|
  {
    var q := count[1] + WORDS * (8 * |m| / LONGS);
    assert 8 * |m| == count[0] + WORDS * q;
    var e := |m| - 0x2000_0000 * q;
    assert count[0] == 8 * e;
    assert |m| == e + BLOCK * (0x80_0000 * q);
    SameRemainder(e, 0x80_0000 * q, |m|);
  }

  lemma SameRemainder(e: int, q: int, n: int)
    requires n == e + BLOCK * q
    ensures n % BLOCK == e % BLOCK
  {
  }

  /** The padding of section 3.1, computed modulo 2^32 from the low word, is the least that fits. */
  lemma PadLength(count: Count, m: seq<byte>)
    requires Counts(count, |m|)
    ensures (WORDS + 55 - count[0] / 8) % WORDS % 64 == Zeros(|m|)
  {
    OffsetIsTail(count, m);
    PadRemainder(count[0] / 8, |m| % BLOCK);
  }

  lemma PadRemainder(bytes: nat, r: nat)
    requires bytes < WORDS && bytes % 64 == r
    ensures (WORDS + 55 - bytes) % WORDS % 64 == (119 - r) % 64
  {
    var q := bytes / 64;
    assert bytes == 64 * q + r;
    if bytes <= 55 {
      assert q == 0;
    } else {
      var v := WORDS + 55 - bytes;
      assert v % WORDS == v;
      SameRemainder(119 - r, 0x400_0000 - 1 - q, v);
    }
  }

  /** The loops that write out the counting words and the registers. */
  method WordBytes(words: seq<word>) returns (data: seq<byte>)
    ensures data == LittleWords(words)
  {
    data := [];
    for i := 0 to 4 * |words|
      invariant data == LittleWords(words)[..i]
    {
      LittleWordsAt(words, i);
      data := data + [words[i / 4] / Power256(i % 4) % 256];
    }
  }

  lemma LengthBytes(count: Count, n: nat)
    requires Counts(count, n)
    ensures LittleWords(count) == ToLittleEndian(8 * n % LONGS, 8)
  {
    assert Power256(4) == WORDS;
    LittleEndianWords(count[0], count[1], 4, 4);
    assert LittleWords(count[1..]) == ToLittleEndian(count[1], 4);
  }

  class State {
    const compress: Compression<Registers>
    var count: Count
    var abcd: Registers
    const buf: array<byte>

    /** The state after exactly the message `m` has been appended. */
    ghost predicate Holds(m: seq<byte>)
      reads this, buf
    {
      && buf.Length == BLOCK
      && Counts(count, |m|)
      && abcd == Absorbed(compress, INITIAL, m)
      && buf[..|Tail(m)|] == Tail(m)
    }

    constructor (f: Compression<Registers>)
      ensures compress == f && buf.Length == BLOCK && fresh(buf)
    {
      compress := f;
      count, abcd := [0, 0], [0, 0, 0, 0];
      buf := new byte[BLOCK](_ => 0);
    }

    method Init()
      requires buf.Length == BLOCK
      modifies this
      ensures Holds([])
    {
      hide Absorbed, Tail;
      NothingAbsorbed(compress, INITIAL);
      count := [0, 0];
      abcd := INITIAL;
    }

    method Process(data: seq<byte>)
      requires |data| == BLOCK
      modifies `abcd
      ensures abcd == compress(old(abcd), data)
    {
      abcd := compress(abcd, data);
    }

    /** Adds to the message length; chunks of 2^28 bytes and more would overflow the shift. */
    method AddLength(nbytes: nat, ghost n: nat)
      requires Counts(count, n) && nbytes < 0x1000_0000
      modifies `count
      ensures Counts(count, n + nbytes)
    {
      hide Counts;
      CountAdds(count, n, nbytes);
      var nbits := nbytes * 8;
      count := count[1 := (count[1] + nbytes / 0x2000_0000) % WORDS];
      count := count[0 := (count[0] + nbits) % WORDS];
      if count[0] < nbits {
        count := count[1 := (count[1] + 1) % WORDS];
      }
      ghost var low := (old(count)[0] + 8 * nbytes) % WORDS;
      assert count == [low, (old(count)[1] + if low < 8 * nbytes then 1 else 0) % WORDS];
    }

    /** Fills the open block with the first bytes of `data`; when it is full it is processed. */
    method FillBlock(data: seq<byte>, offset: nat, ghost m: seq<byte>) returns (copy: nat)
      requires buf.Length == BLOCK && abcd == Absorbed(compress, INITIAL, m) && buf[..|Tail(m)|] == Tail(m)
      requires 0 < offset == |Tail(m)| && data != []
      modifies `abcd, buf
      ensures copy <= |data| && abcd == Absorbed(compress, INITIAL, m + data[..copy])
      ensures offset + copy < BLOCK ==> copy == |data| && buf[..offset + copy] == Tail(m + data)
      ensures offset + copy >= BLOCK ==> Tail(m + data[..copy]) == []
    {
      hide Absorbed, Tail;
      copy := if offset + |data| > BLOCK then BLOCK - offset else |data|;
      forall i | 0 <= i < copy {
        buf[offset + i] := data[i];
      }
      assert buf[..offset + copy] == Tail(m) + data[..copy];
      if offset + copy < BLOCK {
        assert data[..copy] == data;
        TailGrows(compress, INITIAL, m, data);
      } else {
        TailFills(compress, INITIAL, m, data[..copy]);
        assert buf[..] == Tail(m) + data[..copy];
        Process(buf[..]);
      }
    }

    /** Processes the whole blocks of `data` from `p` on and keeps the rest. */
    method ProcessBlocks(data: seq<byte>, p0: nat, ghost m: seq<byte>)
      requires buf.Length == BLOCK && p0 <= |data|
      requires abcd == Absorbed(compress, INITIAL, m + data[..p0]) && Tail(m + data[..p0]) == []
      modifies `abcd, buf
      ensures abcd == Absorbed(compress, INITIAL, m + data)
      ensures buf[..|Tail(m + data)|] == Tail(m + data)
    {
      hide Absorbed, Tail;
      var p, left := p0, |data| - p0;
      while left >= BLOCK
        invariant p <= |data| && left == |data| - p
        invariant abcd == Absorbed(compress, INITIAL, m + data[..p]) && Tail(m + data[..p]) == []
      {
        assert m + data[..p + BLOCK] == m + data[..p] + data[p..p + BLOCK];
        BlockAppended(compress, INITIAL, m + data[..p], data[p..p + BLOCK]);
        Process(data[p..p + BLOCK]);
        p, left := p + BLOCK, left - BLOCK;
      }
      assert m + data == m + data[..p] + data[p..];
      TailGrows(compress, INITIAL, m + data[..p], data[p..]);
      if left > 0 {
        forall i | 0 <= i < left {
          buf[i] := data[p + i];
        }
      }
      assert buf[..left] == data[p..] == [] + data[p..];
    }

    method Append(data: seq<byte>, ghost m: seq<byte>)
      requires Holds(m) && |data| < 0x1000_0000
      modifies this, buf
      ensures Holds(m + data)
    {
      hide Absorbed, Tail;
      OffsetIsTail(count, m);
      var offset := count[0] / 8 % 64;
      if data == [] {
        assert m + data == m;
        return;
      }
      AddLength(|data|, |m|);
      var copy := 0;
      assert m + data[..0] == m;
      if offset != 0 {
        copy := FillBlock(data, offset, m);
        if offset + copy < 64 {
          assert data[..copy] == data;
          return;
        }
      }
      ProcessBlocks(data, copy, m);
    }

    /** The digest is that of the whole message, however it was cut into chunks. */
    method Finish(ghost m: seq<byte>) returns (digest: seq<byte>)
      requires Holds(m)
      modifies this, buf
      ensures digest == DigestOf(compress, m)
    {
      hide Absorbed, Absorb, LittleWords, ToLittleEndian, Tail;
      var data := WordBytes(count);
      LengthBytes(count, |m|);
      PadLength(count, m);
      var bytes: int := count[0] / 8;
      var pad := [0x80] + Filled((WORDS + 55 - bytes) % WORDS % 64);
      Append(pad, m);
      Append(data, m + pad);
      assert m + pad + data == PaddedMessage(m);
      WholeMessage(compress, INITIAL, PaddedMessage(m));
      digest := WordBytes(abcd);
    }
  }

  /** No two messages below 2^61 bytes have the same padded message. */
  lemma PaddedMessageInjective(m: seq<byte>, m': seq<byte>)
    requires 8 * |m| < LONGS && 8 * |m'| < LONGS && PaddedMessage(m) == PaddedMessage(m')
    ensures m == m'
  {
    hide ToLittleEndian, Padded;
    var n, n' := 8 * |m|, 8 * |m'|;
    assert Power256(8) == LONGS;
    LittleEndianInjective(n, n', 8);
    PaddedInjective(m, m', ToLittleEndian(n, 8), ToLittleEndian(n', 8));
  }

  lemma {:induction false} LittleEndianInjective(v: nat, v': nat, n: nat)
    requires v < Power256(n) && v' < Power256(n)
    ensures ToLittleEndian(v, n) == ToLittleEndian(v', n) ==> v == v'
  {
    if n > 0 && ToLittleEndian(v, n) == ToLittleEndian(v', n) {
      assert ToLittleEndian(v, n)[1..] == ToLittleEndian(v / 256, n - 1);
      assert ToLittleEndian(v', n)[1..] == ToLittleEndian(v' / 256, n - 1);
      LittleEndianInjective(v / 256, v' / 256, n - 1);
    }
  }
}
