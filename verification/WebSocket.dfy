/** The receiving side of a connection: reads into a buffer, messages in memory, and the loop that
    hands on what was read too much. */
module WebSocket {
  import opened Bytes
  import opened Frame
  import opened Stream

  /** malloc never grants more than this. */
  const MAX_ALLOCATION := 0x8000_0000_0000_0000

  class Socket {
    /** What the next reads will find. */
    var chunks: Chunks

    constructor (pieces: Chunks)
      ensures chunks == pieces
    {
      chunks := pieces;
    }

    /** recv: up to `room` bytes into the buffer from `at` on; 0 when the connection is closed. */
    method Recv(buffer: array<byte>, at: nat, room: nat) returns (n: nat)
      requires at + room <= buffer.Length && room > 0
      modifies this, buffer
      ensures chunks == (if n == 0 then old(chunks) else Left(old(chunks), room))
      ensures n == |Taken(old(chunks), room)|
      ensures buffer[..] == old(buffer[..at]) + Taken(old(chunks), room) + old(buffer[at + n..])
    {
      var data := Taken(chunks, room);
      n := |data|;
      forall i | 0 <= i < n {
        buffer[at + i] := data[i];
      }
      if n > 0 {
        chunks := Left(chunks, room);
      }
    }
  }

  class WsMessage {
    var opcode: byte
    var mask: seq<byte>
    var len: nat
    var msg: array?<byte>
    var next: seq<byte>
    var enc: seq<byte>
    var hybi00: seq<byte>

    constructor ()
      ensures opcode == 0 && len == 0 && msg == null && next == [] && enc == [] && hybi00 == []
    {
      opcode, mask, len, msg, next, enc, hybi00 := 0, [0, 0, 0, 0], 0, null, [], [], [];
    }
  }

  method Clear(buffer: array<byte>)
    modifies buffer
    ensures buffer[..] == seq(buffer.Length, _ => 0)
  {
    forall i | 0 <= i < buffer.Length {
      buffer[i] := 0;
    }
  }

  /** Copies `data` into the array from `at` on. */
  method CopyInto(dst: array<byte>, at: nat, data: seq<byte>)
    requires at + |data| <= dst.Length
    modifies dst
    ensures dst[..] == old(dst[..at]) + data + old(dst[at + |data|..])
  {
    forall i | 0 <= i < |data| {
      dst[at + i] := data[i];
    }
  }

  /** One read of the rest of a message of which `got` bytes are there. */
  method ReadMore(socket: Socket, m: WsMessage, msg: array<byte>, got: nat) returns (n: nat)
    requires got < m.len < msg.Length
    modifies socket, m`next, msg
    ensures var c := Taken(old(socket.chunks), BUFFERSIZE);
            && n == (if got + |c| > m.len then m.len - got else |c|)
            && msg[..] == old(msg[..got]) + c[..n] + old(msg[got + n..])
            && m.next == (if got + |c| > m.len then c[n..] else old(m.next))
            && socket.chunks == if c == [] then old(socket.chunks) else Left(old(socket.chunks), BUFFERSIZE)
  {
    hide Taken, Left;
    var buffer := new byte[BUFFERSIZE];
    Clear(buffer);
    n := socket.Recv(buffer, 0, BUFFERSIZE);
    var data := buffer[..n];
    assert data == Taken(old(socket.chunks), BUFFERSIZE);
    var final_length := got + n;
    if final_length > m.len {
      var next_len := final_length - m.len;
      m.next := data[n - next_len..];
      n := n - next_len;
    }
    CopyInto(msg, got, data[..n]);
  }

  /** Reads until the message is complete; the rest of the last read belongs to the next message. */
  method GetRemainingMessage(socket: Socket, m: WsMessage, msg: array<byte>, msg_length: nat)
    returns (remaining_length: nat)
    requires msg_length < m.len < msg.Length && m.next == []
    modifies socket, m`next, msg
    ensures var g := Gather(old(msg[..msg_length]), m.len, old(socket.chunks));
            && (g.Cut? <==> remaining_length == 0)
            && (g.Whole? ==>
                  && remaining_length == m.len - msg_length && msg[..m.len] == g.data
                  && m.next == g.carried && socket.chunks == g.left)
    ensures msg[m.len..] == old(msg[m.len..])
  {
    hide Taken, Left, Gather;
    remaining_length := 0;
    ghost var start, chunks := msg[..msg_length], socket.chunks;
    while true
      invariant msg_length + remaining_length < m.len < msg.Length && m.next == []
      invariant msg[m.len..] == old(msg[m.len..])
      invariant Gather(start, m.len, chunks) == Gather(msg[..msg_length + remaining_length], m.len, socket.chunks)
      decreases |Flat(socket.chunks)|
    {
      ghost var got, before, was := msg_length + remaining_length, socket.chunks, msg[..];
      ghost var c := Taken(before, BUFFERSIZE);
      GatherStep(was[..got], m.len, before);
      var n := ReadMore(socket, m, msg, msg_length + remaining_length);
      if n == 0 {
        return 0;
      }
      remaining_length := remaining_length + n;
      assert msg[..got + n] == was[..got] + c[..n] && msg[m.len..] == was[m.len..];
      if msg_length + remaining_length >= m.len {
        assert c[n..] == [] ==> m.next == [];
        return;
      }
      assert c[..n] == c;
    }
  }

  /** The payload length, the size of the header and the mask of a masked frame. */
  method ReadHeader(buffer: array<byte>, little: bool) returns (len: nat, skip: nat, mask: seq<byte>)
    requires buffer.Length == BUFFERSIZE && buffer[1] >= 128
    ensures len == PayloadLength(buffer[..]) && skip == HeaderSize(buffer[1]) && mask == buffer[skip - 4..skip]
  {
    hide BigEndian, Loaded, Swapped, Ntohl64;
    var length := buffer[1] % 128;
    if length <= 125 {
      len, skip, mask := length, 6, buffer[2..6];
    } else if length == 126 {
      LoadedInOrder(little, buffer[2..4]);
      var sz16 := Loaded(little, buffer[2..4]);
      len, skip, mask := Swapped(little, sz16, 2), 8, buffer[4..8];
      assert buffer[..][2..4] == buffer[2..4];
    } else {
      LoadedInOrder(little, buffer[2..10]);
      var sz64 := Loaded(little, buffer[2..10]);
      len, skip, mask := Ntohl64(little, sz64), 14, buffer[10..14];
      assert buffer[..][2..10] == buffer[2..10];
    }
  }

  /** Takes the mask off in place. */
  method Unmask(msg: array<byte>, len: nat, mask: seq<byte>)
    requires len <= msg.Length && |mask| == 4
    modifies msg
    ensures msg[..len] == Masked(old(msg[..len]), mask) && msg[len..] == old(msg[len..])
  {
    hide XorByte;
    for j := 0 to len
      invariant forall i :: 0 <= i < j ==> msg[i] == XorByte(old(msg[i]), mask[i % 4])
      invariant forall i :: j <= i < msg.Length ==> msg[i] == old(msg[i])
    {
      msg[j] := XorByte(msg[j], mask[j % 4]);
    }
  }

  /** Splits what was read behind the header: the message gets its part, the rest is for the next one.
      A header that is not complete makes the number of bytes behind it wrap around. */
  method TakePayload(m: WsMessage, buffer: array<byte>, buffer_length: nat, skip: nat, msg: array<byte>)
    returns (ok: bool, buf_len: nat)
    requires buffer_length <= buffer.Length == BUFFERSIZE && skip <= 14
    requires m.len <= MAXMESSAGE && msg.Length == m.len + 1 && m.next == [] && msg != buffer
    modifies m`next, msg
    ensures ok <==> buffer_length >= skip
    ensures ok ==> var data := buffer[..][skip..buffer_length];
                   && buf_len == (if |data| > m.len then m.len else |data|)
                   && msg[..buf_len] == data[..buf_len] && m.next == data[buf_len..]
                   && msg[m.len] == old(msg[m.len])
  {
    WrapsBelow(buffer_length - skip);
    ok, buf_len := true, (buffer_length - skip + LONGS) % LONGS;
    if buf_len > m.len {
      var next_len := buf_len - m.len;
      if next_len > MAX_ALLOCATION {
        ok := false;
        return;
      }
      SliceOfSlice(buffer[..], skip, buffer_length, m.len);
      m.next := buffer[..][m.len + skip..m.len + skip + next_len];
      buf_len := m.len;
    } else {
      SliceOfSlice(buffer[..], skip, buffer_length, buf_len);
    }
    ghost var was := msg[..];
    CopyInto(msg, 0, buffer[..][skip..skip + buf_len]);
    assert msg[m.len] == was[m.len];
  }

  /** The difference of two small numbers as an unsigned 64-bit word. */
  lemma WrapsBelow(d: int)
    requires -14 <= d <= BUFFERSIZE
    ensures (d + LONGS) % LONGS == if d >= 0 then d else d + LONGS
  {
  }

  lemma SliceOfSlice(s: seq<byte>, lo: nat, hi: nat, k: nat)
    requires lo + k <= hi <= |s|
    ensures s[lo..hi][k..] == s[lo + k..hi] && s[lo..hi][..k] == s[lo..lo + k]
  {
  }

  /** Completes the message if the first read did not, and takes the mask off. */
  method FinishMessage(socket: Socket, m: WsMessage, msg: array<byte>, message_length0: nat, ghost data: seq<byte>)
    returns (status: Status)
    requires msg.Length == m.len + 1 && |m.mask| == 4 && msg[m.len] == 0
    requires message_length0 == (if |data| > m.len then m.len else |data|)
    requires msg[..message_length0] == data[..message_length0] && m.next == data[message_length0..]
    modifies socket, m`next, msg
    ensures |data| >= m.len ==> status == CONTINUE && msg[..] == Masked(data[..m.len], m.mask) + [0]
                                && m.next == data[m.len..] && socket.chunks == old(socket.chunks)
    ensures |data| < m.len ==>
              match Gather(data, m.len, old(socket.chunks))
              case Cut => status == CLOSE_POLICY
              case Whole(all, carried, left) =>
                status == CONTINUE && msg[..] == Masked(all, m.mask) + [0] && m.next == carried && socket.chunks == left
  {
    hide Gather, Masked;
    var message_length := message_length0;
    if message_length < m.len {
      assert data[..message_length] == data;
      var remaining_length := GetRemainingMessage(socket, m, msg, message_length);
      if remaining_length == 0 {
        return CLOSE_POLICY;
      }
      message_length := message_length + remaining_length;
    }
    Unmask(msg, message_length, m.mask);
    assert msg[..] == msg[..m.len] + msg[m.len..];
    status := CONTINUE;
  }

  /** Reads one whole frame whose first bytes are in the buffer. */
  method ParseMessage(buffer: array<byte>, buffer_length: nat, socket: Socket, m: WsMessage, little: bool,
                      ghost got: seq<byte>)
    returns (status: Status)
    requires buffer.Length == BUFFERSIZE && |got| == buffer_length <= BUFFERSIZE && buffer[..] == Buffered(got)
    requires m.len == 0 && m.next == []
    modifies socket, m
    ensures m.opcode == old(m.opcode)
    ensures match ReadFrame(got, old(socket.chunks))
            case Closed(s) => status == s
            case Received(first, payload, carried, left) =>
              && status == CONTINUE && m.msg != null && m.msg[..] == payload + [0] && m.len == |payload|
              && m.next == carried && socket.chunks == left
  {
    hide PayloadLength, HeaderSize, Gather, Masked;
    if buffer[1] < 128 {
      return CLOSE_PROTOCOL;
    }
    MaskedHeader(buffer[1]);
    var skip;
    m.len, skip, m.mask := ReadHeader(buffer, little);
    if m.len > MAXMESSAGE {
      return CLOSE_BIG;
    }
    var msg := new byte[m.len + 1](_ => 0);
    m.msg := msg;
    var ok, buf_len := TakePayload(m, buffer, buffer_length, skip, msg);
    if !ok {
      return CLOSE_UNEXPECTED;
    }
    assert buffer[skip..buffer_length] == got[skip..];
    status := FinishMessage(socket, m, msg, buf_len, got[skip..]);
  }

  // ----- the frames that are sent -----

  /** Encodes the message for both protocol families. */
  method EncodeMessage(m: WsMessage, little: bool)
    requires m.msg != null && m.len <= m.msg.Length && m.len < LONGS
    modifies m`enc, m`hybi00
    ensures m.enc == Encoded(m.msg[..m.len])
    ensures m.hybi00 == [0] + m.msg[..m.len] + [0xFF]
  {
    hide ToBigEndian, Stored, Swapped, Ntohl64;
    var payload := m.msg[..m.len];
    assert Power256(2) == 0x1_0000 && Power256(8) == LONGS;
    if m.len <= 125 {
      m.enc := [FIN_TEXT, m.len] + payload;
    } else if m.len <= 65535 {
      StoredInOrder(little, m.len, 2);
      var sz16 := Swapped(little, m.len, 2);
      m.enc := [FIN_TEXT, 126] + Stored(little, sz16, 2) + payload;
    } else {
      StoredInOrder(little, m.len, 8);
      var sz64 := Ntohl64(little, m.len);
      m.enc := [FIN_TEXT, 127] + Stored(little, sz64, 8) + payload;
    }
    m.hybi00 := [0] + payload + [0xFF];
  }

  // ----- one message of a client -----

  class WsClient {
    const socket: Socket
    var message: WsMessage?

    constructor (s: Socket)
      ensures socket == s && message == null
    {
      socket, message := s, null;
    }

    /** Puts what was carried over into the buffer, and reads more if it is too little to go on. */
    method FillBuffer(buffer: array<byte>, next: seq<byte>) returns (ok: bool, buf_len: nat)
      requires buffer.Length == BUFFERSIZE && |next| <= BUFFERSIZE
      modifies socket, buffer
      ensures ok <==> !(NeedsRead(next) && Taken(old(socket.chunks), BUFFERSIZE - |next|) == [])
      ensures ok ==> var got := AtHand(next, old(socket.chunks));
                     && buf_len == |got| && buffer[..] == Buffered(got)
                     && socket.chunks == NotYetRead(next, old(socket.chunks))
    {
      hide Taken, Left, Buffered;
      Clear(buffer);
      ghost var cleared := buffer[..];
      CopyInto(buffer, 0, next);
      BufferStarts(cleared, next);
      assert cleared[..0] + next + cleared[|next|..] == buffer[..];
      ok, buf_len := true, |next|;
      if NeedsRead(next) {
        ghost var data, start := Taken(socket.chunks, BUFFERSIZE - |next|), buffer[..];
        BufferGoesOn(start, next, data);
        var n := socket.Recv(buffer, |next|, BUFFERSIZE - |next|);
        if n == 0 {
          ok := false;
          return;
        }
        buf_len := n + |next|;
        assert buffer[..] == start[..|next|] + data + start[|next| + n..];
      }
    }

    /** The RFC 6455 branch: one frame is received, unmasked, judged by its opcode and, if it is text,
        encoded for sending. */
    method Communicate(next: seq<byte>, little: bool) returns (status: Status)
      requires |next| <= BUFFERSIZE
      modifies this, socket
      ensures match Receive(next, old(socket.chunks))
              case Closed(s) => status == s
              case Received(first, payload, carried, left) =>
                && status == Verdict(first) && socket.chunks == left
                && message != null && fresh(message) && message.len == |payload| && message.next == carried
                && message.msg != null && message.msg[..] == payload + [0]
                && (status == CONTINUE ==> message.enc == Encoded(payload) && message.hybi00 == [0] + payload + [0xFF])
      ensures status == CONTINUE ==> Receive(next, old(socket.chunks)).Received?
    {
      hide ReadFrame, NeedsRead, AtHand, NotYetRead, Encoded, Taken;
      message := new WsMessage();
      var buffer := new byte[BUFFERSIZE];
      var ok, buf_len := FillBuffer(buffer, next);
      if !ok {
        return CLOSE_PROTOCOL;
      }
      ghost var got, chunks := AtHand(next, old(socket.chunks)), socket.chunks;
      if message.opcode == 0 {
        message.opcode := buffer[0];
      }
      status := ParseMessage(buffer, buf_len, socket, message, little, got);
      FirstOf(got, chunks);
      if status != CONTINUE {
        return;
      }
      var opcode := message.opcode;
      if buffer[0] < 0x80 {
        status := FRAGMENT;
      } else if opcode == 0x88 || opcode == 0x08 {
        status := CLOSE_NORMAL;
      } else if opcode == 0x8A || opcode == 0x0A {
        status := CLOSE_TYPE;
      } else if opcode == 0x89 || opcode == 0x09 {
        status := CLOSE_TYPE;
      } else if opcode == 0x02 || opcode == 0x82 {
        status := CLOSE_TYPE;
      } else if opcode == 0x01 || opcode == 0x81 {
        EncodeMessage(message, little);
        assert message.msg[..message.len] == message.msg[..][..message.len];
      } else {
        status := CLOSE_UNEXPECTED;
      }
    }

    /** The loop of a connection: what was read too much for one message starts the next one. */
    method HandleClient(little: bool) returns (delivered: seq<seq<byte>>, status: Status)
      modifies this, socket
      ensures Session(delivered, status) == Serve([], old(socket.chunks))
    {
      hide Receive, Verdict;
      var next := [];
      delivered := [];
      ghost var chunks := socket.chunks;
      assert [] + Serve(next, socket.chunks).delivered == Serve(next, socket.chunks).delivered;
      while true
        invariant |next| <= BUFFERSIZE
        invariant delivered + Serve(next, socket.chunks).delivered == Serve([], chunks).delivered
        invariant Serve(next, socket.chunks).status == Serve([], chunks).status
        decreases |next| + |Flat(socket.chunks)|
      {
        ghost var before, r := socket.chunks, Receive(next, socket.chunks);
        status := Communicate(next, little);
        if status != CONTINUE {
          assert delivered + [] == delivered;
          break;
        }
        ReceiveShrinks(next, before);
        var payload := message.msg[..message.len];
        assert payload == r.payload;
        assert delivered + ([payload] + Serve(r.carried, r.left).delivered)
            == delivered + [payload] + Serve(r.carried, r.left).delivered;
        delivered := delivered + [payload];
        next := message.next;
        message := null;
      }
    }
  }

  /** Bytes put at the front of a cleared buffer, and more bytes behind them. */
  lemma BufferStarts(cleared: seq<byte>, next: seq<byte>)
    requires |next| <= BUFFERSIZE && cleared == seq(BUFFERSIZE, _ => 0)
    ensures cleared[..0] + next + cleared[|next|..] == Buffered(next)
  {
  }

  lemma BufferGoesOn(start: seq<byte>, next: seq<byte>, data: seq<byte>)
    requires |next| + |data| <= BUFFERSIZE && start == Buffered(next)
    ensures start[..|next|] + data + start[|next| + |data|..] == Buffered(next + data)
  {
  }

  /** A received frame starts with the first byte at hand, and is not too big. */
  lemma FirstOf(got: seq<byte>, chunks: Chunks)
    requires |got| <= BUFFERSIZE
    ensures var r := ReadFrame(got, chunks);
            && (r.Received? ==> r.first == Buffered(got)[0] && |r.payload| <= MAXMESSAGE)
            && (r.Closed? ==> r.status != CONTINUE)
  {
    hide Gather, Masked, PayloadLength, HeaderSize, Open;
    var buffer := Buffered(got);
    var skip, len := HeaderSize(buffer[1]), PayloadLength(buffer);
    if skip <= |got| && |got[skip..]| < len {
      GatherConserves(got[skip..], len, chunks);
    }
  }
}
