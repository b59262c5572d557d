/** The base 64 codec of section 3 of RFC 3548, with buffers that may be too small. */
module Base64 {
  import opened Bytes

  type sextet = v: int | 0 <= v < 64

  const PAD: byte := 61
  const NUL: byte := 0

  // ----- the alphabet -----

  function Symbol(v: sextet): (c: byte) {
    if v < 26 then 65 + v
    else if v < 52 then 97 + (v - 26)
    else if v < 62 then 48 + (v - 52)
    else if v == 62 then 43
    else 47
  }

  /** The value of a character, or -1 outside the alphabet. */
  function B64(c: byte): (v: int)
    ensures -1 <= v < 64
  {
    if 65 <= c <= 90 then c - 65
    else if 97 <= c <= 122 then c - 97 + 26
    else if 48 <= c <= 57 then c - 48 + 52
    else if c == 43 then 62
    else if c == 47 then 63
    else -1
  }

  predicate IsBase64(c: byte) {
    0 <= B64(c)
  }

  /** The alphabet is a bijection onto the 64 values, in the order of table 1 of RFC 3548: capital letters, small
      letters, digits, plus and slash. The padding is left out. */
  lemma AlphabetBijective()
    ensures forall c: byte :: 'A' as int <= c <= 'Z' as int ==> B64(c) == c - 'A' as int
    ensures forall c: byte :: 'a' as int <= c <= 'z' as int ==> B64(c) == 26 + c - 'a' as int
    ensures forall c: byte :: '0' as int <= c <= '9' as int ==> B64(c) == 52 + c - '0' as int
    ensures B64('+' as int) == 62 && B64('/' as int) == 63 && PAD == '=' as int
    ensures forall v: sextet :: B64(Symbol(v)) == v
    ensures forall c: byte :: IsBase64(c) ==> Symbol(B64(c)) == c
    ensures !IsBase64(PAD) && !IsBase64(NUL)
  {
  }

  // ----- encoding -----

  /** A byte of the input, or 0 behind its end. */
  function ByteAt(data: seq<byte>, i: nat): (b: byte) {
    if i < |data| then data[i] else 0
  }

  /** The four groups of six bits in three bytes. */
  function Sextet(a: byte, b: byte, c: byte, j: nat): (v: sextet)
    requires j < 4
  {
    if j == 0 then a / 4
    else if j == 1 then a % 4 * 16 + b / 16
    else if j == 2 then b % 16 * 4 + c / 64
    else c % 64
  }

  /** Character `j` of the four that stand for the up to three bytes of group `t`. */
  function Quad(data: seq<byte>, t: nat, j: nat): byte
    requires 3 * t < |data| && j < 4
  {
    if j <= 1 || 3 * t + j <= |data|
    then Symbol(Sextet(data[3 * t], ByteAt(data, 3 * t + 1), ByteAt(data, 3 * t + 2), j))
    else PAD
  }

  function Base64Length(n: nat): nat {
    (n + 2) / 3 * 4
  }

  function Encoded(data: seq<byte>): (text: seq<byte>)
    ensures |text| == Base64Length(|data|)
  {
    seq(Base64Length(|data|), k requires 0 <= k < Base64Length(|data|) => Quad(data, k / 4, k % 4))
  }

  /** What a call leaves in a buffer of which it may use `outlen` bytes. */
  function Written(before: seq<byte>, text: seq<byte>, outlen: nat): (after: seq<byte>)
    requires outlen <= |before|
    ensures |after| == |before|
  {
    if outlen <= |text| then text[..outlen] + before[outlen..]
    else text + before[|text|..]
  }

  /** The buffer after encoding: a zero byte follows the text when there is still room for it. */
  function Terminated(before: seq<byte>, text: seq<byte>, outlen: nat): (after: seq<byte>)
    requires outlen <= |before|
  {
    Written(before, if outlen > |text| then text + [NUL] else text, outlen)
  }

  /** The first `o` bytes of the buffer are those of the text, the others are as before. */
  ghost predicate Progress(before: seq<byte>, out: seq<byte>, text: seq<byte>, o: nat) {
    && o <= |text| && o <= |out| == |before|
    && (forall k :: 0 <= k < o ==> out[k] == text[k])
    && (forall k :: o <= k < |out| ==> out[k] == before[k])
  }

  /** One byte more. */
  method Emit(out: array<byte>, c: byte, o: nat, left: nat, ghost before: seq<byte>, ghost text: seq<byte>)
    returns (o': nat, left': nat)
    requires 0 < left && o + left <= out.Length
    requires Progress(before, out[..], text, o) && o < |text| && text[o] == c
    modifies out
    ensures o' == o + 1 && left' == left - 1 && Progress(before, out[..], text, o')
  {
    out[o] := c;
    o', left' := o + 1, left - 1;
  }

  lemma QuadText(data: seq<byte>, t: nat)
    requires 3 * t < |data|
    ensures var text, o := Encoded(data), 4 * t;
            && o + 4 <= |text| && (3 * t + 3 >= |data| ==> o + 4 == |text|)
            && text[o] == Quad(data, t, 0) && text[o + 1] == Quad(data, t, 1)
            && text[o + 2] == Quad(data, t, 2) && text[o + 3] == Quad(data, t, 3)
  {
    hide Quad;
    QuadChar(data, t, 0);
    QuadChar(data, t, 1);
    QuadChar(data, t, 2);
    QuadChar(data, t, 3);
  }

  lemma QuadChar(data: seq<byte>, t: nat, j: nat)
    requires 3 * t < |data| && j < 4
    ensures 4 * t + j < |Encoded(data)| && Encoded(data)[4 * t + j] == Quad(data, t, j)
  {
    hide Quad;
    assert (4 * t + j) / 4 == t && (4 * t + j) % 4 == j;
  }

  /** The shifts and masks of the encoder pick out the four groups. */
  lemma MaskedSextets(a: byte, b: byte, c: byte)
    ensures a / 4 % 64 == Sextet(a, b, c, 0)
    ensures (16 * (a as int) + b / 16) % 64 == Sextet(a, b, c, 1)
    ensures (4 * (b as int) + c / 64) % 64 == Sextet(a, b, c, 2)
    ensures c % 64 == Sextet(a, b, c, 3)
  {
    MaskedSecond(a, b, c);
    MaskedThird(a, b, c);
  }

  lemma MaskedSecond(a: byte, b: byte, c: byte)
    ensures (16 * (a as int) + b / 16) % 64 == Sextet(a, b, c, 1)
  {
    var q, r := a / 4, a % 4;
    assert 16 * (a as int) + b / 16 == 64 * q + (16 * r + b / 16);
    LowBits(q, 16 * r + b / 16);
  }

  lemma MaskedThird(a: byte, b: byte, c: byte)
    ensures (4 * (b as int) + c / 64) % 64 == Sextet(a, b, c, 2)
  {
    var q, r := b / 16, b % 16;
    assert 4 * (b as int) + c / 64 == 64 * q + (4 * r + c / 64);
    LowBits(q, 4 * r + c / 64);
  }

  lemma LowBits(q: nat, x: nat)
    requires x < 64
    ensures (64 * q + x) % 64 == x
  {
  }

  /** Encodes three bytes, or what is left of them, while there is room. */
  method EncodeQuad(data: seq<byte>, g: nat, ghost t: nat, out: array<byte>, o0: nat, left0: nat,
                    ghost before: seq<byte>)
    returns (o: nat, left: nat, inlen: nat)
    requires g == 3 * t < |data| && o0 == 4 * t && 0 < left0 && o0 + left0 <= out.Length
    requires Progress(before, out[..], Encoded(data), o0)
    modifies out
    ensures Progress(before, out[..], Encoded(data), o) && o + left == o0 + left0
    ensures left > 0 ==> o == 4 * t + 4 && inlen == if 3 * t + 3 < |data| then |data| - 3 * t - 3 else 0
  {
    hide Encoded, Progress, Sextet, Symbol;
    ghost var text := Encoded(data);
    ghost var a, b, c := data[3 * t], ByteAt(data, 3 * t + 1), ByteAt(data, 3 * t + 2);
    QuadText(data, t);
    MaskedSextets(a, b, c);
    inlen := |data| - g;
    var in0: int := data[g];
    o, left := Emit(out, Symbol(in0 / 4 % 64), o0, left0, before, text);
    if left == 0 {
      return;
    }
    inlen := inlen - 1;
    var in1: int := if inlen > 0 then data[g + 1] else 0;
    o, left := Emit(out, Symbol((16 * in0 + in1 / 16) % 64), o, left, before, text);
    if left == 0 {
      return;
    }
    var third := PAD;
    if inlen > 0 {
      inlen := inlen - 1;
      var in2: int := if inlen > 0 then data[g + 2] else 0;
      third := Symbol((4 * in1 + in2 / 64) % 64);
    }
    o, left := Emit(out, third, o, left, before, text);
    if left == 0 {
      return;
    }
    o, left := Emit(out, if inlen > 0 then Symbol(data[g + 2] % 64) else PAD, o, left, before, text);
    if left > 0 && inlen > 0 {
      inlen := inlen - 1;
    }
  }

  lemma NothingWritten(before: seq<byte>, text: seq<byte>)
    ensures Progress(before, before, text, 0)
  {
  }

  lemma AllWritten(before: seq<byte>, out: seq<byte>, text: seq<byte>, o: nat, outlen: nat)
    requires Progress(before, out, text, o) && o <= outlen <= |out| && (o == outlen || o == |text|)
    ensures outlen <= |before|
    ensures o == outlen ==> out == Terminated(before, text, outlen)
    ensures o < outlen ==> out[o := NUL] == Terminated(before, text, outlen)
  {
    if o == outlen {
      assert out == text[..o] + before[o..];
    } else {
      assert out[o := NUL] == text + [NUL] + before[o + 1..];
      assert o + 1 == outlen ==> (text + [NUL])[..o + 1] == text + [NUL];
    }
  }

  /** With any room the encoder writes exactly the prefix that fits, and a zero byte after the whole text. */
  method Encode(data: seq<byte>, out: array<byte>, outlen: nat)
    requires outlen <= out.Length
    modifies out
    ensures out[..] == Terminated(old(out[..]), Encoded(data), outlen)
  {
    hide Encoded, Progress, Quad, Written, Terminated;
    ghost var before, text := out[..], Encoded(data);
    NothingWritten(before, text);
    var g: nat, o: nat, left: nat, inlen: nat := 0, 0, outlen, |data|;
    ghost var t: nat := 0;
    while inlen > 0 && left > 0
      invariant o + left == outlen && o <= out.Length && Progress(before, out[..], text, o)
      invariant left > 0 && inlen > 0 ==> inlen == |data| - g && g == 3 * t && o == 4 * t
      invariant left > 0 && inlen == 0 ==> o == |text|
      decreases inlen, left
    {
      QuadText(data, t);
      o, left, inlen := EncodeQuad(data, g, t, out, o, left, before);
      if left == 0 {
        break;
      }
      if inlen > 0 {
        g, t := g + 3, t + 1;
      }
    }
    AllWritten(before, out[..], text, o, outlen);
    if left > 0 {
      out[o] := NUL;
    }
  }

  // ----- decoding -----

  datatype Decoding = Decoding(bytes: seq<byte>, ok: bool)

  function Value(c: byte): (v: sextet)
    requires IsBase64(c)
  {
    B64(c)
  }

  /** The three bytes in four groups of six bits. */
  function Byte0(a: sextet, b: sextet): byte {
    a * 4 + b / 16
  }

  function Byte1(b: sextet, c: sextet): byte {
    b % 16 * 16 + c / 4
  }

  function Byte2(c: sextet, d: sextet): byte {
    c % 4 * 64 + d
  }

  /** The bytes of the next four characters, and whether the text may go on after them. */
  function QuadDecoded(text: seq<byte>): Decoding
    requires |text| >= 2
  {
    if !IsBase64(text[0]) || !IsBase64(text[1]) then Decoding([], false)
    else
      var b0 := Byte0(Value(text[0]), Value(text[1]));
      if |text| == 2 then Decoding([b0], false)
      else if text[2] == PAD then Decoding([b0], |text| == 4 && text[3] == PAD)
      else if !IsBase64(text[2]) then Decoding([b0], false)
      else
        var b1 := Byte1(Value(text[1]), Value(text[2]));
        if |text| == 3 then Decoding([b0, b1], false)
        else if text[3] == PAD then Decoding([b0, b1], |text| == 4)
        else if !IsBase64(text[3]) then Decoding([b0, b1], false)
        else Decoding([b0, b1, Byte2(Value(text[2]), Value(text[3]))], true)
  }

  /** The bytes of a text up to the place where decoding stops, and whether it reached the end. */
  function Decoded(text: seq<byte>): Decoding {
    if |text| < 2 then Decoding([], text == [])
    else
      var q := QuadDecoded(text);
      if !q.ok then q
      else var rest := Decoded(text[4..]); Decoding(q.bytes + rest.bytes, rest.ok)
  }

  /** One byte more of the result, if there is room for it. */
  method Put(out: array<byte>, c: byte, outlen: nat, left: nat, ghost before: seq<byte>, ghost done: seq<byte>)
    returns (left': nat)
    requires outlen <= out.Length == |before| && left == (if |done| < outlen then outlen - |done| else 0)
    requires out[..] == Written(before, done, outlen)
    modifies out
    ensures left' == if |done + [c]| < outlen then outlen - |done + [c]| else 0
    ensures out[..] == Written(before, done + [c], outlen)
  {
    left' := left;
    if left > 0 {
      out[outlen - left] := c;
      left' := left - 1;
    }
  }

  /** Decodes the next four characters from `i` on, as far as they are valid. */
  method DecodeQuad(text: seq<byte>, i: nat, out: array<byte>, outlen: nat, left0: nat, ghost before: seq<byte>,
                    ghost done: seq<byte>)
    returns (left: nat, ok: bool)
    requires i + 2 <= |text| && outlen <= out.Length == |before|
    requires left0 == if |done| < outlen then outlen - |done| else 0
    requires out[..] == Written(before, done, outlen)
    modifies out
    ensures var q := QuadDecoded(text[i..]);
            && ok == q.ok && left == (if |done + q.bytes| < outlen then outlen - |done + q.bytes| else 0)
            && out[..] == Written(before, done + q.bytes, outlen)
  {
    hide Written, B64;
    ghost var q := QuadDecoded(text[i..]);
    left, ok := left0, false;
    assert done + [] == done;
    if !IsBase64(text[i]) || !IsBase64(text[i + 1]) {
      return;
    }
    var a, b := Value(text[i]), Value(text[i + 1]);
    left := Put(out, Byte0(a, b), outlen, left, before, done);
    if |text| - i == 2 {
      return;
    }
    if text[i + 2] == PAD {
      ok := |text| - i == 4 && text[i + 3] == PAD;
      return;
    }
    if !IsBase64(text[i + 2]) {
      return;
    }
    var c := Value(text[i + 2]);
    left := Put(out, Byte1(b, c), outlen, left, before, done + [Byte0(a, b)]);
    assert done + [Byte0(a, b)] + [Byte1(b, c)] == done + [Byte0(a, b), Byte1(b, c)];
    if |text| - i == 3 {
      return;
    }
    if text[i + 3] == PAD {
      ok := |text| - i == 4;
      return;
    }
    if !IsBase64(text[i + 3]) {
      return;
    }
    var d := Value(text[i + 3]);
    left := Put(out, Byte2(c, d), outlen, left, before, done + [Byte0(a, b), Byte1(b, c)]);
    assert done + [Byte0(a, b), Byte1(b, c)] + [Byte2(c, d)] == done + q.bytes;
    ok := true;
  }

  /** The decoder writes exactly the prefix of the decoded bytes that fits. */
  method Decode(text: seq<byte>, out: array<byte>, outlen: nat) returns (ok: bool, written: nat)
    requires outlen <= out.Length
    modifies out
    ensures var d := Decoded(text);
            && ok == d.ok && written == (if |d.bytes| < outlen then |d.bytes| else outlen)
            && out[..] == Written(old(out[..]), d.bytes, outlen)
  {
    hide QuadDecoded, Written;
    ghost var before, done := out[..], [];
    NothingTaken(before, outlen);
    var i: nat, inlen: nat, left: nat := 0, |text|, outlen;
    while inlen >= 2
      invariant i + inlen == |text| && outlen <= out.Length == |before|
      invariant left == if |done| < outlen then outlen - |done| else 0
      invariant out[..] == Written(before, done, outlen)
      invariant Decoded(text) == Decoding(done + Decoded(text[i..]).bytes, Decoded(text[i..]).ok)
      decreases inlen
    {
      var more;
      left, more := DecodeQuad(text, i, out, outlen, left, before, done);
      DecodedStep(text, i, done);
      done := done + QuadDecoded(text[i..]).bytes;
      if !more {
        break;
      }
      i, inlen := i + 4, inlen - 4;
    }
    if inlen < 2 {
      assert done + [] == done;
    }
    written := outlen - left;
    ok := inlen == 0;
  }

  lemma NothingTaken(before: seq<byte>, outlen: nat)
    requires outlen <= |before|
    ensures Written(before, [], outlen) == before
  {
  }

  lemma DecodedStep(text: seq<byte>, i: nat, done: seq<byte>)
    requires i + 2 <= |text|
    ensures var q := QuadDecoded(text[i..]);
            && (q.ok ==> i + 4 <= |text|)
            && (q.ok ==> done + Decoded(text[i..]).bytes == done + q.bytes + Decoded(text[i + 4..]).bytes)
            && (q.ok ==> Decoded(text[i..]).ok == Decoded(text[i + 4..]).ok)
            && (!q.ok ==> Decoded(text[i..]) == q)
  {
    if QuadDecoded(text[i..]).ok {
      assert text[i..][4..] == text[i + 4..];
    }
  }

  // ----- what decoding means -----

  /** The number of alphabet characters a text starts with. */
  function Leading(text: seq<byte>): (n: nat)
    ensures n <= |text|
    ensures forall i :: 0 <= i < n ==> IsBase64(text[i])
    ensures n < |text| ==> !IsBase64(text[n])
  {
    if text == [] || !IsBase64(text[0]) then 0 else 1 + Leading(text[1..])
  }

  /** Byte `k` of the bit string that the values of the characters form. */
  function Octet(text: seq<byte>, k: nat): byte
    requires k < Leading(text) * 3 / 4
  {
    var i := k / 3 * 4;
    assert i + k % 3 + 1 < Leading(text);
    match k % 3
    case 0 => Byte0(Value(text[i]), Value(text[i + 1]))
    case 1 => Byte1(Value(text[i + 1]), Value(text[i + 2]))
    case _ => Byte2(Value(text[i + 2]), Value(text[i + 3]))
  }

  /** Groups of four characters of the alphabet, the last one perhaps ending in "=" or "==". */
  predicate WellPadded(text: seq<byte>) {
    && |text| % 4 == 0
    && |text| - Leading(text) <= 2
    && forall i :: Leading(text) <= i < |text| ==> text[i] == PAD
  }

  lemma LeadingIs(text: seq<byte>, n: nat)
    requires n <= |text| && (forall i :: 0 <= i < n ==> IsBase64(text[i]))
    requires n < |text| ==> !IsBase64(text[n])
    ensures Leading(text) == n
  {
  }

  /** The first four characters alone. */
  lemma QuadExact(text: seq<byte>)
    requires |text| >= 2
    ensures var q, n := QuadDecoded(text), Leading(text);
            && |q.bytes| == (if n >= 4 then 3 else n * 3 / 4)
            && (forall k :: 0 <= k < |q.bytes| ==> k < n * 3 / 4 && q.bytes[k] == Octet(text, k))
            && (n >= 4 ==> q.ok)
  {
    hide B64, Byte0, Byte1, Byte2, Value, Leading, WellPadded;
    AlphabetBijective();
  }

  /** A group of four that is not all of the alphabet has to be the last one. */
  lemma QuadEnds(text: seq<byte>)
    requires |text| >= 2 && Leading(text) < 4
    ensures QuadDecoded(text).ok <==> |text| == 4 && WellPadded(text)
  {
    hide B64, Byte0, Byte1, Byte2, Value, Leading;
    AlphabetBijective();
  }

  /** The characters after the first four, when these are all of the alphabet. */
  lemma RestExact(text: seq<byte>)
    requires Leading(text) >= 4
    ensures Leading(text[4..]) == Leading(text) - 4
    ensures WellPadded(text) <==> WellPadded(text[4..])
    ensures forall k {:trigger Octet(text, k)} :: 3 <= k < Leading(text) * 3 / 4 ==>
              Octet(text, k) == Octet(text[4..], k - 3)
  {
    hide Leading, Octet, WellPadded;
    RestLeads(text);
    RestPadded(text);
    forall k: nat | 3 <= k < Leading(text) * 3 / 4
      ensures Octet(text, k) == Octet(text[4..], k - 3)
    {
      RestOctet(text, k);
    }
  }

  lemma RestLeads(text: seq<byte>)
    requires Leading(text) >= 4
    ensures Leading(text[4..]) == Leading(text) - 4
  {
    hide Leading;
    LeadingIs(text[4..], Leading(text) - 4);
  }

  lemma RestPadded(text: seq<byte>)
    requires Leading(text) >= 4 && Leading(text[4..]) == Leading(text) - 4
    ensures WellPadded(text) <==> WellPadded(text[4..])
  {
    hide Leading, B64;
    var rest := text[4..];
    assert forall i :: Leading(text) <= i < |text| ==> text[i] == rest[i - 4];
    assert forall i :: Leading(rest) <= i < |rest| ==> rest[i] == text[i + 4];
  }

  lemma RestOctet(text: seq<byte>, k: nat)
    requires Leading(text) >= 4 && Leading(text[4..]) == Leading(text) - 4 && 3 <= k < Leading(text) * 3 / 4
    ensures Octet(text, k) == Octet(text[4..], k - 3)
  {
    hide Leading, B64, Byte0, Byte1, Byte2;
    assert (k - 3) / 3 == k / 3 - 1 && (k - 3) % 3 == k % 3;
  }

  /** Any decoding yields exactly the whole bytes in the bits of the leading alphabet characters, and
      it succeeds exactly on well-padded texts. */
  lemma {:induction false} DecodedExact(text: seq<byte>)
    ensures |Decoded(text).bytes| == Leading(text) * 3 / 4
    ensures forall k :: 0 <= k < |Decoded(text).bytes| ==> Decoded(text).bytes[k] == Octet(text, k)
    ensures Decoded(text).ok <==> WellPadded(text)
  {
    hide B64, QuadDecoded, Octet;
    if |text| >= 2 {
      QuadExact(text);
      if Leading(text) >= 4 {
        DecodedExact(text[4..]);
        RestExact(text);
      } else {
        QuadEnds(text);
        hide Leading;
        assert |text| == 4 ==> text[4..] == [];
      }
    }
  }

  /** The buffer that base64_decode_alloc asks for holds the result of any text. */
  lemma NeedlenSuffices(text: seq<byte>)
    ensures |Decoded(text).bytes| <= 3 * (|text| / 4) + 2
  {
    DecodedExact(text);
  }

  // ----- there and back -----

  /** The four characters of three bytes, or of what is left of them, decode to these bytes. */
  lemma QuadRoundTrip(data: seq<byte>)
    requires data != []
    ensures var text, q := Encoded(data), QuadDecoded(Encoded(data));
            && |text| >= 4 && q.ok && q.bytes == data[..if |data| < 3 then |data| else 3]
  {
    hide B64, Symbol, Encoded;
    AlphabetBijective();
    QuadText(data, 0);
    BitsRoundTrip(data[0], ByteAt(data, 1), ByteAt(data, 2));
  }

  lemma BitsRoundTrip(a: byte, b: byte, c: byte)
    ensures Byte0(Sextet(a, b, c, 0), Sextet(a, b, c, 1)) == a
    ensures Byte1(Sextet(a, b, c, 1), Sextet(a, b, c, 2)) == b
    ensures Byte2(Sextet(a, b, c, 2), Sextet(a, b, c, 3)) == c
  {
  }

  lemma EncodedRest(data: seq<byte>)
    requires data != []
    ensures |Encoded(data)| >= 4
    ensures Encoded(data)[4..] == if |data| < 3 then [] else Encoded(data[3..])
  {
    hide Quad;
    if |data| >= 3 {
      var rest := data[3..];
      forall k: nat | k < |Encoded(rest)|
        ensures Encoded(data)[k + 4] == Encoded(rest)[k]
      {
        RestChar(data, k);
      }
    }
  }

  lemma RestChar(data: seq<byte>, k: nat)
    requires |data| >= 3 && k < |Encoded(data[3..])|
    ensures k + 4 < |Encoded(data)| && Encoded(data)[k + 4] == Encoded(data[3..])[k]
  {
    hide Quad;
    assert (k + 4) / 4 == k / 4 + 1 && (k + 4) % 4 == k % 4;
    QuadOfRest(data, k / 4, k % 4);
  }

  lemma QuadOfRest(data: seq<byte>, t: nat, j: nat)
    requires |data| >= 3 && 3 * t < |data| - 3 && j < 4
    ensures Quad(data, t + 1, j) == Quad(data[3..], t, j)
  {
    hide Symbol, Sextet;
  }

  /** Decoding an encoding gives the data back, for every input. */
  lemma {:induction false} RoundTrip(data: seq<byte>)
    ensures Decoded(Encoded(data)) == Decoding(data, true)
  {
    hide Encoded, QuadDecoded;
    if data != [] {
      QuadRoundTrip(data);
      EncodedRest(data);
      if |data| >= 3 {
        RoundTrip(data[3..]);
        assert data == data[..3] + data[3..];
      }
    } else {
      NothingEncoded();
    }
  }

  lemma NothingEncoded()
    ensures Encoded([]) == []
  {
  }

  /** The bits that padding leaves over are zero. */
  predicate Canonical(text: seq<byte>) {
    && WellPadded(text)
    && (|text| - Leading(text) == 1 ==> |text| >= 4 && B64(text[|text| - 2]) % 4 == 0)
    && (|text| - Leading(text) == 2 ==> |text| >= 4 && B64(text[|text| - 3]) % 16 == 0)
  }

  lemma SextetsRoundTrip(a: sextet, b: sextet, c: sextet, d: sextet)
    ensures var x, y, z := Byte0(a, b), Byte1(b, c), Byte2(c, d);
            && Sextet(x, y, z, 0) == a && Sextet(x, y, z, 1) == b && Sextet(x, y, z, 2) == c && Sextet(x, y, z, 3) == d
            && Sextet(x, 0, 0, 0) == Sextet(x, y, 0, 0) == a && Sextet(x, y, 0, 1) == b
            && (Sextet(x, 0, 0, 1) == b <==> b % 16 == 0) && (Sextet(x, y, 0, 2) == c <==> c % 4 == 0)
  {
  }

  /** The encoding of the decoded first four characters. */
  lemma QuadBack(text: seq<byte>)
    requires Leading(text) >= 4
    ensures var data := Decoded(text).bytes;
            && data == QuadDecoded(text).bytes + Decoded(text[4..]).bytes && |QuadDecoded(text).bytes| == 3
            && Encoded(data)[..4] == text[..4]
  {
    hide B64, Symbol, Encoded, Sextet, Byte0, Byte1, Byte2, Leading;
    AlphabetBijective();
    QuadExact(text);
    var data := Decoded(text).bytes;
    SextetsRoundTrip(Value(text[0]), Value(text[1]), Value(text[2]), Value(text[3]));
    QuadText(data, 0);
  }

  lemma SymbolDetermines(c: byte, v: sextet)
    requires IsBase64(c)
    ensures Symbol(v) == c <==> v == Value(c)
  {
  }

  lemma LastBack(text: seq<byte>)
    requires |text| == 4 && WellPadded(text) && Leading(text) < 4
    ensures Encoded(Decoded(text).bytes) == text <==> Canonical(text)
  {
    hide B64, Symbol, Encoded, Sextet, Byte0, Byte1, Byte2, Leading;
    AlphabetBijective();
    QuadEnds(text);
    NothingDecoded();
    assert text[4..] == [] && text[3] == PAD;
    var data, a, b := Decoded(text).bytes, Value(text[0]), Value(text[1]);
    if Leading(text) == 3 {
      var c := Value(text[2]);
      SextetsRoundTrip(a, b, c, 0);
      assert data == [Byte0(a, b), Byte1(b, c)];
      QuadText(data, 0);
      SymbolDetermines(text[2], Sextet(data[0], data[1], 0, 2));
    } else {
      SextetsRoundTrip(a, b, 0, 0);
      assert text[2] == PAD;
      assert data == [Byte0(a, b)];
      QuadText(data, 0);
      SymbolDetermines(text[1], Sextet(data[0], 0, 0, 1));
    }
  }

  lemma NothingDecoded()
    ensures Decoded([]) == Decoding([], true) && Canonical([])
  {
  }

  lemma CanonicalRest(text: seq<byte>)
    requires Leading(text) >= 4
    ensures Canonical(text) <==> Canonical(text[4..])
  {
    hide B64, Leading, WellPadded;
    var rest := text[4..];
    RestExact(text);
    if WellPadded(text) {
      PaddedLength(text);
      assert |rest| >= 4 ==> text[|text| - 2] == rest[|rest| - 2] && text[|text| - 3] == rest[|rest| - 3];
    }
  }

  lemma PaddedLength(text: seq<byte>)
    requires WellPadded(text)
    ensures |text| % 4 == 0 && |text| - Leading(text) <= 2
  {
  }

  /** Of the texts that can be decoded, exactly those with zero left-over bits are encodings. */
  lemma {:induction false} EncodedExact(text: seq<byte>)
    requires Decoded(text).ok
    ensures Encoded(Decoded(text).bytes) == text <==> Canonical(text)
  {
    hide B64, Symbol, Encoded, QuadDecoded, Leading, Decoded, Canonical;
    DecodedExact(text);
    if text == [] {
      NothingEncoded();
      NothingDecoded();
    } else if Leading(text) >= 4 {
      var data := Decoded(text).bytes;
      QuadBack(text);
      RestExact(text);
      DecodedExact(text[4..]);
      EncodedExact(text[4..]);
      EncodedRest(data);
      assert data[3..] == Decoded(text[4..]).bytes;
      CanonicalRest(text);
      assert text == text[..4] + text[4..] && Encoded(data) == Encoded(data)[..4] + Encoded(data)[4..];
    } else {
      LastBack(text);
    }
  }

  // ----- allocation -----

  /** The size computed in a word that wraps around at `size`. */
  function WrappedOutlen(n: nat, size: nat): nat
    requires size > 0
  {
    (1 + 4 * ((n + 2) % size / 3) % size) % size
  }

  /** The comparison finds exactly the overflows of the size computation. */
  lemma OverflowDetected(n: nat, size: nat)
    requires n < size && size % 4 == 0 && size >= 8
    ensures n > WrappedOutlen(n, size) <==> 1 + Base64Length(n) >= size
    ensures n <= WrappedOutlen(n, size) ==> WrappedOutlen(n, size) == 1 + Base64Length(n)
  {
    var k, q := (n + 2) % size / 3, size / 4;
    assert size == 4 * q;
    Wraps(n + 2, size);
    Wraps(4 * k, size);
    var x := 4 * k % size;
    assert x == if k < q then 4 * k else 4 * (k - q);
    Wraps(1 + x, size);
  }

  lemma Wraps(v: nat, size: nat)
    requires 0 < size && v < 2 * size
    ensures v % size == if v < size then v else v - size
  {
  }

  /** `granted` says whether the memory is available. */
  method EncodeAlloc(data: seq<byte>, size: nat, granted: bool) returns (out: array?<byte>, r: nat)
    requires |data| < size && size % 4 == 0 && size >= 8
    ensures 1 + Base64Length(|data|) >= size ==> out == null && r == 0
    ensures 1 + Base64Length(|data|) < size && !granted ==> out == null && r == 1 + Base64Length(|data|)
    ensures 1 + Base64Length(|data|) < size && granted ==>
              out != null && out[..] == Encoded(data) + [NUL] && r == |Encoded(data)|
  {
    OverflowDetected(|data|, size);
    var outlen := WrappedOutlen(|data|, size);
    if |data| > outlen {
      return null, 0;
    }
    if !granted {
      return null, outlen;
    }
    out := new byte[outlen](_ => 0);
    Encode(data, out, outlen);
    r := outlen - 1;
  }

  method DecodeAlloc(text: seq<byte>, granted: bool) returns (ok: bool, out: array?<byte>, outlen: nat)
    ensures !granted ==> ok && out == null
    ensures granted ==> (ok <==> WellPadded(text)) && (ok <==> out != null)
    ensures out != null ==> outlen == |Decoded(text).bytes| <= out.Length && out[..outlen] == Decoded(text).bytes
  {
    hide Decoded, WellPadded;
    DecodedExact(text);
    NeedlenSuffices(text);
    var needlen := 3 * (|text| / 4) + 2;
    if !granted {
      return true, null, 0;
    }
    var buffer := new byte[needlen](_ => 0);
    ok, outlen := Decode(text, buffer, needlen);
    out := if ok then buffer else null;
  }
}
