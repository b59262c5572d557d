/** Cutting a byte stream into messages, when the bytes arrive in arbitrary pieces and what was read
    too much is handed on to the next call. */
module Stream {
  import opened Bytes
  import opened Frame

  const BUFFERSIZE := 8192
  const MAXMESSAGE := 1048576

  /** The pieces that successive reads will find; an empty one is a closed or failed connection. */
  type Chunks = seq<seq<byte>>

  function Flat(chunks: Chunks): seq<byte> {
    if chunks == [] then [] else chunks[0] + Flat(chunks[1..])
  }

  /** What a read with `room` bytes of room returns. */
  function Taken(chunks: Chunks, room: nat): (data: seq<byte>)
    ensures |data| <= room
  {
    if chunks == [] then [] else if |chunks[0]| <= room then chunks[0] else chunks[0][..room]
  }

  function Left(chunks: Chunks, room: nat): Chunks {
    if chunks == [] then [] else if |chunks[0]| <= room then chunks[1..] else [chunks[0][room..]] + chunks[1..]
  }

  ghost predicate Open(chunks: Chunks) {
    forall c <- chunks :: c != []
  }

  /** A read takes bytes from the stream and loses none. */
  lemma ReadConserves(chunks: Chunks, room: nat)
    requires room > 0
    ensures Flat(chunks) == Taken(chunks, room) + Flat(Left(chunks, room))
    ensures Open(chunks) ==> Open(Left(chunks, room))
    ensures Open(chunks) && chunks != [] ==> Taken(chunks, room) != []
  {
    hide Open, Flat, Taken, Left;
    FlatLeft(chunks, room);
    if Open(chunks) {
      OpenLeft(chunks, room);
    }
  }

  lemma FlatLeft(chunks: Chunks, room: nat)
    requires room > 0
    ensures Flat(chunks) == Taken(chunks, room) + Flat(Left(chunks, room))
  {
    if chunks != [] && |chunks[0]| > room {
      var c, left := chunks[0], Left(chunks, room);
      assert left[0] == c[room..] && left[1..] == chunks[1..];
      assert c + Flat(chunks[1..]) == c[..room] + (c[room..] + Flat(chunks[1..]));
    }
  }

  lemma OpenLeft(chunks: Chunks, room: nat)
    requires room > 0 && Open(chunks)
    ensures Open(Left(chunks, room)) && (chunks != [] ==> Taken(chunks, room) != [])
  {
    if chunks != [] {
      assert chunks[0] in chunks;
      assert forall d <- chunks[1..] :: d in chunks;
    }
  }

  /** Reads with any bytes in them make the waiting bytes fewer. */
  lemma ReadShrinks(chunks: Chunks, room: nat)
    requires room > 0 && Taken(chunks, room) != []
    ensures |Flat(Left(chunks, room))| < |Flat(chunks)|
  {
    ReadConserves(chunks, room);
  }

  // ----- the rest of a message -----

  datatype Gathering = Cut | Whole(data: seq<byte>, carried: seq<byte>, left: Chunks)

  /** Reads until `len` bytes are there; what exceeds them is carried over. */
  function Gather(data: seq<byte>, len: nat, chunks: Chunks): Gathering
    requires |data| < len
    decreases |Flat(chunks)|
  {
    var c, left := Taken(chunks, BUFFERSIZE), Left(chunks, BUFFERSIZE);
    if c == [] then Cut
    else if |data| + |c| >= len then Whole(data + c[..len - |data|], c[len - |data|..], left)
    else
      ReadShrinks(chunks, BUFFERSIZE);
      Gather(data + c, len, left)
  }

  /** One round of gathering. */
  lemma GatherStep(data: seq<byte>, len: nat, chunks: Chunks)
    requires |data| < len
    ensures var c, left := Taken(chunks, BUFFERSIZE), Left(chunks, BUFFERSIZE);
            && (c == [] ==> Gather(data, len, chunks) == Cut)
            && (c != [] && |data| + |c| >= len ==>
                  Gather(data, len, chunks) == Whole(data + c[..len - |data|], c[len - |data|..], left))
            && (c != [] && |data| + |c| < len ==>
                  |Flat(left)| < |Flat(chunks)| && Gather(data, len, chunks) == Gather(data + c, len, left))
  {
    if Taken(chunks, BUFFERSIZE) != [] {
      ReadShrinks(chunks, BUFFERSIZE);
    }
  }

  /** Gathering conserves every byte, and on an open connection it succeeds exactly when the stream
      still holds enough. */
  lemma {:induction false} GatherConserves(data: seq<byte>, len: nat, chunks: Chunks)
    requires |data| < len
    ensures var g := Gather(data, len, chunks);
            && (g.Whole? ==> |g.data| == len && g.data + g.carried + Flat(g.left) == data + Flat(chunks)
                             && |g.carried| < BUFFERSIZE)
            && (Open(chunks) ==> (g.Whole? <==> |data| + |Flat(chunks)| >= len))
            && (Open(chunks) && g.Whole? ==> Open(g.left))
    decreases |Flat(chunks)|
  {
    hide Open;
    var c, left := Taken(chunks, BUFFERSIZE), Left(chunks, BUFFERSIZE);
    ReadConserves(chunks, BUFFERSIZE);
    if c != [] {
      if |data| + |c| >= len {
        var d := len - |data|;
        assert data + c[..d] + c[d..] + Flat(left) == data + (c + Flat(left));
      } else {
        ReadShrinks(chunks, BUFFERSIZE);
        GatherConserves(data + c, len, left);
        assert data + c + Flat(left) == data + (c + Flat(left));
      }
    }
  }

  // ----- one message -----

  datatype Status = CONTINUE | CLOSE_NORMAL | CLOSE_PROTOCOL | CLOSE_TYPE | CLOSE_POLICY | CLOSE_BIG | CLOSE_UNEXPECTED
                  | FRAGMENT

  /** Either a frame, with its first byte and unmasked payload, or the reason to close. */
  datatype Reception =
    | Closed(status: Status)
    | Received(first: byte, payload: seq<byte>, carried: seq<byte>, left: Chunks)

  /** What was carried over does not yet hold a header and one byte more. */
  predicate NeedsRead(next: seq<byte>) {
    |next| <= 6 || (next[1] % 128 == 126 && |next| <= 8) || (next[1] % 128 == 127 && |next| <= 14)
  }

  /** The bytes at hand when the header is looked at. */
  function AtHand(next: seq<byte>, chunks: Chunks): (got: seq<byte>)
    requires |next| <= BUFFERSIZE
    ensures |next| <= |got| <= BUFFERSIZE
  {
    if NeedsRead(next) then next + Taken(chunks, BUFFERSIZE - |next|) else next
  }

  function NotYetRead(next: seq<byte>, chunks: Chunks): Chunks
    requires |next| <= BUFFERSIZE
  {
    if NeedsRead(next) then Left(chunks, BUFFERSIZE - |next|) else chunks
  }

  /** A buffer that was cleared before the bytes came in. */
  function Buffered(got: seq<byte>): (buffer: seq<byte>)
    requires |got| <= BUFFERSIZE
    ensures |buffer| == BUFFERSIZE
  {
    got + seq(BUFFERSIZE - |got|, _ => 0)
  }

  /** The payload of a frame, given the bytes at hand. */
  function ReadFrame(got: seq<byte>, chunks: Chunks): Reception
    requires |got| <= BUFFERSIZE
  {
    var buffer := Buffered(got);
    var skip, len := HeaderSize(buffer[1]), PayloadLength(buffer);
    if buffer[1] < 128 then Closed(CLOSE_PROTOCOL)
    else if len > MAXMESSAGE then Closed(CLOSE_BIG)
    else if |got| < skip then Closed(CLOSE_UNEXPECTED)
    else
      var mask, data := buffer[skip - 4..skip], got[skip..];
      if |data| >= len then Received(buffer[0], Masked(data[..len], mask), data[len..], chunks)
      else
        match Gather(data, len, chunks)
        case Cut => Closed(CLOSE_POLICY)
        case Whole(all, carried, left) => Received(buffer[0], Masked(all, mask), carried, left)
  }

  function Receive(next: seq<byte>, chunks: Chunks): Reception
    requires |next| <= BUFFERSIZE
  {
    if NeedsRead(next) && Taken(chunks, BUFFERSIZE - |next|) == [] then Closed(CLOSE_PROTOCOL)
    else ReadFrame(AtHand(next, chunks), NotYetRead(next, chunks))
  }

  /** The opcode decides what a complete frame means. */
  function Verdict(first: byte): Status {
    if first < 128 then FRAGMENT
    else if first == 0x88 then CLOSE_NORMAL
    else if first in {0x8A, 0x89, 0x82} then CLOSE_TYPE
    else if first == FIN_TEXT then CONTINUE
    else CLOSE_UNEXPECTED
  }

  /** The header of the frame is complete when it is looked at, and a read that is needed finds something. */
  predicate HeaderArrives(next: seq<byte>, chunks: Chunks)
    requires |next| <= BUFFERSIZE
  {
    var got := AtHand(next, chunks);
    && (NeedsRead(next) ==> |got| > |next|)
    && |got| >= 2 && |got| >= HeaderSize(got[1])
  }

  /** All bytes received are the frame, what is carried over, and what is still to come. */
  lemma AtHandConserves(next: seq<byte>, chunks: Chunks)
    requires |next| <= BUFFERSIZE
    ensures AtHand(next, chunks) + Flat(NotYetRead(next, chunks)) == next + Flat(chunks)
    ensures Open(chunks) ==> Open(NotYetRead(next, chunks))
  {
    hide Open;
    if NeedsRead(next) {
      ReadConserves(chunks, BUFFERSIZE - |next|);
      assert next + Taken(chunks, BUFFERSIZE - |next|) + Flat(NotYetRead(next, chunks))
          == next + (Taken(chunks, BUFFERSIZE - |next|) + Flat(NotYetRead(next, chunks)));
    }
  }

  lemma SameSlice(got: seq<byte>, rest: seq<byte>, i: nat, j: nat)
    requires i <= j <= |got| <= BUFFERSIZE
    ensures Buffered(got)[i..j] == got[i..j] && (got + rest)[i..j] == got[i..j]
  {
  }

  /** The header reads the same in the buffer and in the stream. */
  lemma HeaderInBuffer(got: seq<byte>, rest: seq<byte>)
    requires 2 <= |got| <= BUFFERSIZE && HeaderSize(got[1]) <= |got|
    ensures var buffer, stream, h := Buffered(got), got + rest, HeaderSize(got[1]);
            && buffer[0] == stream[0] == got[0] && buffer[1] == stream[1] == got[1]
            && PayloadLength(buffer) == PayloadLength(stream)
            && (got[1] >= 128 ==> buffer[h - 4..h] == stream[h - 4..h])
  {
    hide BigEndian;
    var h, e := HeaderSize(got[1]), 2 + ExtendedSize(got[1]);
    SameSlice(got, rest, 2, e);
    if got[1] >= 128 {
      SameSlice(got, rest, h - 4, h);
    }
  }

  /** A masked frame of a message that is not too big. */
  predicate ClientFrame(f: Parsed) {
    f.Parsed? && |f.mask| == 4 && |f.data| <= MAXMESSAGE
  }

  /** With its header at hand, a frame of the stream is read to its end. */
  lemma ReadFrameConserves(got: seq<byte>, chunks: Chunks)
    requires 2 <= |got| <= BUFFERSIZE && HeaderSize(got[1]) <= |got| && Open(chunks)
    requires ClientFrame(Parse(got + Flat(chunks)))
    ensures var f, r := Parse(got + Flat(chunks)), ReadFrame(got, chunks);
            && r.Received? && r.first == got[0] && r.payload == Masked(f.data, f.mask)
            && r.carried + Flat(r.left) == f.rest && Open(r.left)
            && |r.carried| <=
               (if |got| - HeaderSize(got[1]) >= |f.data| then |got| - HeaderSize(got[1]) else BUFFERSIZE - 1)
  {
    hide PayloadLength, HeaderSize, Gather, Masked, Open, Buffered, MaskSize, ExtendedSize, Shortest, Flat, Parse;
    var stream, f, h := got + Flat(chunks), Parse(got + Flat(chunks)), HeaderSize(got[1]);
    HeaderInBuffer(got, Flat(chunks));
    MaskedHeader(got[1]);
    var len, data := PayloadLength(stream), got[h..];
    FrameParts(got, Flat(chunks));
    if |data| >= len {
      CutWithin(data, Flat(chunks), len);
    } else {
      GatherConserves(data, len, chunks);
      var g := Gather(data, len, chunks);
      assert data + Flat(chunks) == g.data + (g.carried + Flat(g.left));
      CutWithin(g.data, g.carried + Flat(g.left), len);
    }
  }

  lemma CutWithin(data: seq<byte>, rest: seq<byte>, n: nat)
    requires n <= |data|
    ensures (data + rest)[..n] == data[..n] && (data + rest)[n..] == data[n..] + rest
    ensures n == |data| ==> data[..n] == data && data[n..] + rest == rest
  {
  }

  /** The parts of a masked frame, of which the header and some more is at hand. */
  lemma FrameParts(got: seq<byte>, rest: seq<byte>)
    requires 2 <= |got| <= BUFFERSIZE && HeaderSize(got[1]) <= |got| && ClientFrame(Parse(got + rest))
    ensures var stream, f, h := got + rest, Parse(got + rest), HeaderSize(got[1]);
            var len, all := PayloadLength(stream), got[h..] + rest;
            && h >= 4 && got[1] >= 128 && len <= |all| && f.mask == stream[h - 4..h]
            && f.data == all[..len] && f.rest == all[len..] && |f.data| == len
  {
    hide PayloadLength, HeaderSize, Masked;
    var stream, h := got + rest, HeaderSize(got[1]);
    MaskedHeader(got[1]);
    assert stream[h..] == got[h..] + rest;
  }

  lemma MaskedHeader(b: byte)
    ensures 14 >= HeaderSize(b) >= 2 + ExtendedSize(b) && (b >= 128 ==> HeaderSize(b) >= 6 && MaskSize(b) == 4)
    ensures b < 128 ==> MaskSize(b) == 0
  {
  }

  /** Without its whole header at hand, a masked frame always ends the connection. */
  lemma ShortHeaderCloses(got: seq<byte>, rest: seq<byte>, chunks: Chunks)
    requires |got| <= BUFFERSIZE && ClientFrame(Parse(got + rest))
    requires |got| < 2 || |got| < HeaderSize(got[1])
    ensures ReadFrame(got, chunks).Closed?
  {
    hide PayloadLength, Gather, Masked;
  }

  /** A frame at the start of the stream is received exactly when its header arrives in time; then its
      payload is unmasked, and nothing of the stream behind it is lost. */
  lemma FrameReceived(next: seq<byte>, chunks: Chunks)
    requires |next| < BUFFERSIZE && Open(chunks) && ClientFrame(Parse(next + Flat(chunks)))
    ensures var f, r := Parse(next + Flat(chunks)), Receive(next, chunks);
            && (r.Received? <==> HeaderArrives(next, chunks))
            && (r.Received? ==> r.first == (next + Flat(chunks))[0] && r.payload == Masked(f.data, f.mask)
                                && r.carried + Flat(r.left) == f.rest && Open(r.left) && |r.carried| < BUFFERSIZE)
  {
    hide ReadFrame, Parse, HeaderSize, Masked, Open;
    AtHandConserves(next, chunks);
    var got, left := AtHand(next, chunks), NotYetRead(next, chunks);
    if |got| >= 2 && |got| >= HeaderSize(got[1]) {
      ReadFrameConserves(got, left);
      MaskedHeader(got[1]);
    } else {
      ShortHeaderCloses(got, Flat(left), left);
    }
  }

  // ----- a whole connection -----

  lemma ReceiveShrinks(next: seq<byte>, chunks: Chunks)
    requires |next| <= BUFFERSIZE && Receive(next, chunks).Received?
    ensures var r := Receive(next, chunks);
            |r.carried| <= BUFFERSIZE && |r.carried| + |Flat(r.left)| < |next| + |Flat(chunks)|
  {
    hide PayloadLength, HeaderSize, Gather, Masked;
    AtHandConserves(next, chunks);
    var got, left := AtHand(next, chunks), NotYetRead(next, chunks);
    var buffer := Buffered(got);
    var skip, len := HeaderSize(buffer[1]), PayloadLength(buffer);
    MaskedHeader(buffer[1]);
    if |got[skip..]| < len {
      GatherConserves(got[skip..], len, left);
    }
    assert |got| + |Flat(left)| == |next| + |Flat(chunks)|;
  }

  datatype Session = Session(delivered: seq<seq<byte>>, status: Status)

  /** The messages handed to the service until the connection ends. */
  function Serve(next: seq<byte>, chunks: Chunks): Session
    requires |next| <= BUFFERSIZE
    decreases |next| + |Flat(chunks)|
  {
    match Receive(next, chunks)
    case Closed(status) => Session([], status)
    case Received(first, payload, carried, left) =>
      ReceiveShrinks(next, chunks);
      if Verdict(first) != CONTINUE then Session([], Verdict(first))
      else
        var later := Serve(carried, left);
        Session([payload] + later.delivered, later.status)
  }

  /** The stream is exactly these text messages, each in a single masked frame, one after the other. */
  predicate TextMessages(stream: seq<byte>, payloads: seq<seq<byte>>)
    decreases |payloads|
  {
    if payloads == [] then stream == []
    else
      var f := Parse(stream);
      && ClientFrame(f) && f.fin && f.rsv == 0 && f.opcode == 1
      && Masked(f.data, f.mask) == payloads[0] && TextMessages(f.rest, payloads[1..])
  }

  /** Each of the next `n` messages is received. */
  predicate ReceivesAll(next: seq<byte>, chunks: Chunks, n: nat)
    requires |next| <= BUFFERSIZE
    decreases n
  {
    n == 0 ||
    (HeaderArrives(next, chunks) &&
     var r := Receive(next, chunks);
     r.Received? && (ReceiveShrinks(next, chunks); ReceivesAll(r.carried, r.left, n - 1)))
  }

  lemma FirstByte(stream: seq<byte>)
    ensures var f := Parse(stream);
            f.Parsed? && f.fin && f.rsv == 0 && f.opcode == 1 ==> Verdict(stream[0]) == CONTINUE
  {
  }

  lemma NothingLeft(next: seq<byte>, chunks: Chunks)
    requires |next| <= BUFFERSIZE && Open(chunks) && next + Flat(chunks) == []
    ensures Receive(next, chunks) == Closed(CLOSE_PROTOCOL)
  {
    if chunks != [] {
      assert chunks[0] in chunks;
    }
  }

  /** The payloads are delivered in order, as far as they are received. */
  lemma {:induction false} SessionReceives(next: seq<byte>, chunks: Chunks, payloads: seq<seq<byte>>)
    requires |next| < BUFFERSIZE && Open(chunks) && TextMessages(next + Flat(chunks), payloads)
    ensures var s := Serve(next, chunks);
            && s.delivered <= payloads
            && (s.delivered == payloads <==> ReceivesAll(next, chunks, |payloads|))
            && (s.delivered == payloads ==> s.status == CLOSE_PROTOCOL)
    decreases |payloads|
  {
    hide Receive, Parse, Masked, Open, HeaderArrives, Flat, Verdict;
    if payloads == [] {
      NothingLeft(next, chunks);
    } else {
      FrameReceived(next, chunks);
      FirstByte(next + Flat(chunks));
      var r := Receive(next, chunks);
      if r.Received? {
        SessionReceives(r.carried, r.left, payloads[1..]);
        var later := Serve(r.carried, r.left);
        assert payloads == [payloads[0]] + payloads[1..];
        assert ([payloads[0]] + later.delivered)[1..] == later.delivered;
      }
    }
  }

  // ----- which messages arrive, by the boundaries of the reads alone -----

  function Lengths(chunks: Chunks): (lens: seq<nat>)
    ensures |lens| == |chunks|
  {
    seq(|chunks|, i requires 0 <= i < |chunks| => |chunks[i]|)
  }

  /** How much a read takes of pieces of these lengths, and what lengths are left. */
  function TakenLength(lens: seq<nat>, room: nat): nat {
    if lens == [] then 0 else if lens[0] <= room then lens[0] else room
  }

  function LeftLengths(lens: seq<nat>, room: nat): seq<nat> {
    if lens == [] then [] else if lens[0] <= room then lens[1..] else [lens[0] - room] + lens[1..]
  }

  /** The header and the whole of a frame, in bytes. */
  datatype Extent = Extent(header: nat, total: nat)

  /** The first `n` frames of a stream. */
  function Extents(stream: seq<byte>, n: nat): seq<Extent> {
    if n == 0 then []
    else
      var f := Parse(stream);
      if f.Incomplete? then [] else [Extent(HeaderSize(stream[1]), |stream| - |f.rest|)] + Extents(f.rest, n - 1)
  }

  datatype Boundary = Boundary(carried: nat, lens: seq<nat>)

  /** Reading on until no byte is missing. */
  function ReadOn(missing: int, lens: seq<nat>): Boundary
    decreases missing
  {
    if missing <= 0 then Boundary(-missing, lens)
    else if TakenLength(lens, BUFFERSIZE) == 0 then Boundary(0, [])
    else ReadOn(missing - TakenLength(lens, BUFFERSIZE), LeftLengths(lens, BUFFERSIZE))
  }

  /** Where each frame starts `carried` bytes before a boundary, its header has to be behind it or within the
      one read that is made when no more than the header is there; then all reads up to its end are made. */
  predicate HeadersArrive(carried: nat, lens: seq<nat>, frames: seq<Extent>)
    requires carried <= BUFFERSIZE
    decreases |frames|
  {
    frames == [] ||
    var more, room := carried <= frames[0].header, BUFFERSIZE - carried;
    var got := if more then carried + TakenLength(lens, room) else carried;
    var left := if more then LeftLengths(lens, room) else lens;
    && (more ==> lens != []) && got >= frames[0].header
    && var next := ReadOn(frames[0].total - got, left);
       next.carried <= BUFFERSIZE && HeadersArrive(next.carried, next.lens, frames[1..])
  }

  lemma TakenByLength(chunks: Chunks, room: nat)
    ensures |Taken(chunks, room)| == TakenLength(Lengths(chunks), room)
    ensures Lengths(Left(chunks, room)) == LeftLengths(Lengths(chunks), room)
  {
  }

  lemma {:induction false} GatherReadsOn(data: seq<byte>, len: nat, chunks: Chunks)
    requires |data| < len
    ensures var g, b := Gather(data, len, chunks), ReadOn(len - |data|, Lengths(chunks));
            g.Whole? ==> |g.carried| == b.carried && Lengths(g.left) == b.lens
    decreases len - |data|
  {
    hide Lengths, Taken, Left, TakenLength, LeftLengths, Gather;
    GatherStep(data, len, chunks);
    TakenByLength(chunks, BUFFERSIZE);
    var c, left := Taken(chunks, BUFFERSIZE), Left(chunks, BUFFERSIZE);
    if c != [] && |data| + |c| < len {
      GatherReadsOn(data + c, len, left);
    }
  }

  /** With a frame at the start of the stream, its header arrives exactly when the boundaries say so. */
  lemma ArrivesByLength(next: seq<byte>, chunks: Chunks)
    requires |next| < BUFFERSIZE && Open(chunks) && ClientFrame(Parse(next + Flat(chunks)))
    ensures |next + Flat(chunks)| >= 2
    ensures var h, got := HeaderSize((next + Flat(chunks))[1]), AtHand(next, chunks);
            && (NeedsRead(next) <==> |next| <= h)
            && (HeaderArrives(next, chunks) <==> (|next| <= h ==> chunks != []) && |got| >= h)
  {
    hide Open, HeaderSize, NeedsRead, Flat, ClientFrame, Parse;
    var stream, got := next + Flat(chunks), AtHand(next, chunks);
    MaskedFrame(stream);
    AtHandConserves(next, chunks);
    if NeedsRead(next) && chunks != [] {
      ReadConserves(chunks, BUFFERSIZE - |next|);
    }
    if |next| >= 2 {
      NeedsReadExactly(next);
    } else {
      ShortNeedsRead(next);
    }
  }

  lemma MaskedFrame(stream: seq<byte>)
    requires ClientFrame(Parse(stream))
    ensures |stream| >= 2 && stream[1] >= 128 && 6 <= HeaderSize(stream[1]) <= |stream|
  {
    hide PayloadLength;
  }

  lemma AtHandByLength(next: seq<byte>, chunks: Chunks)
    requires |next| <= BUFFERSIZE
    ensures var room := BUFFERSIZE - |next|;
            && |AtHand(next, chunks)|
            == (if NeedsRead(next) then |next| + TakenLength(Lengths(chunks), room) else |next|)
            && Lengths(NotYetRead(next, chunks))
               == if NeedsRead(next) then LeftLengths(Lengths(chunks), room) else Lengths(chunks)
  {
    hide Lengths, Taken, Left, TakenLength, LeftLengths, NeedsRead;
    TakenByLength(chunks, BUFFERSIZE - |next|);
  }

  /** What is carried over ends at the boundary that the lengths tell. */
  lemma CarriedByLength(next: seq<byte>, chunks: Chunks)
    requires |next| < BUFFERSIZE && Open(chunks) && ClientFrame(Parse(next + Flat(chunks)))
    requires HeaderArrives(next, chunks)
    ensures Receive(next, chunks).Received? && Parse(next + Flat(chunks)).Parsed?
    ensures var stream, r := next + Flat(chunks), Receive(next, chunks);
            var b := ReadOn(|stream| - |Parse(stream).rest| - |AtHand(next, chunks)|,
                            Lengths(NotYetRead(next, chunks)));
            |r.carried| == b.carried && Lengths(r.left) == b.lens
  {
    hide Open, HeaderSize, Flat, PayloadLength, Gather, Masked, AtHand, NotYetRead, NeedsRead, Buffered, ReadOn,
      Lengths, ClientFrame, MaskSize, ExtendedSize, Shortest;
    FrameReceived(next, chunks);
    AtHandConserves(next, chunks);
    var stream, got, left := next + Flat(chunks), AtHand(next, chunks), NotYetRead(next, chunks);
    FrameExtent(stream);
    HeaderInBuffer(got, Flat(left));
    var h, len := HeaderSize(got[1]), PayloadLength(stream);
    assert stream == got + Flat(left);
    if |got[h..]| < len {
      GatherReadsOn(got[h..], len, left);
    } else {
      EnoughAtHand(len - |got[h..]|, Lengths(left));
    }
  }

  lemma EnoughAtHand(missing: int, lens: seq<nat>)
    requires missing <= 0
    ensures ReadOn(missing, lens) == Boundary(-missing, lens)
  {
  }

  lemma FrameExtent(stream: seq<byte>)
    requires ClientFrame(Parse(stream))
    ensures |stream| >= 2 && |stream| >= 2 + ExtendedSize(stream[1])
    ensures |stream| - |Parse(stream).rest| == HeaderSize(stream[1]) + PayloadLength(stream)
  {
    hide PayloadLength;
  }

  /** The stream begins with this many masked frames of messages that are not too big. */
  predicate ClientFrames(stream: seq<byte>, n: nat)
    decreases n
  {
    n == 0 || (ClientFrame(Parse(stream)) && ClientFrames(Parse(stream).rest, n - 1))
  }

  lemma {:induction false} TextsAreFrames(stream: seq<byte>, payloads: seq<seq<byte>>)
    requires TextMessages(stream, payloads)
    ensures ClientFrames(stream, |payloads|)
    decreases |payloads|
  {
    hide Parse, Masked;
    if payloads != [] {
      TextsAreFrames(Parse(stream).rest, payloads[1..]);
    }
  }

  /** These frames are all received exactly when the boundaries of the reads let every header arrive. */
  lemma {:induction false} ReceivesByBoundaries(next: seq<byte>, chunks: Chunks, n: nat)
    requires |next| < BUFFERSIZE && Open(chunks) && ClientFrames(next + Flat(chunks), n)
    ensures ReceivesAll(next, chunks, n) <==>
            HeadersArrive(|next|, Lengths(chunks), Extents(next + Flat(chunks), n))
    decreases n
  {
    hide Receive, Parse, Masked, Open, HeaderArrives, Flat, AtHand, NotYetRead, NeedsRead, Lengths, TakenLength,
      LeftLengths, ReadOn, HeaderSize;
    if n > 0 {
      var stream := next + Flat(chunks);
      ArrivesByLength(next, chunks);
      AtHandByLength(next, chunks);
      FrameReceived(next, chunks);
      var frames := Extents(stream, n);
      assert frames[1..] == Extents(Parse(stream).rest, n - 1);
      if HeaderArrives(next, chunks) {
        CarriedByLength(next, chunks);
        var r := Receive(next, chunks);
        ReceivesByBoundaries(r.carried, r.left, n - 1);
      }
    }
  }

  /** For any messages and any cutting of their bytes into reads, the service gets the payloads in order,
      as far as the headers arrive in one piece: all of them exactly when the boundaries let all headers arrive. */
  lemma SessionDelivers(next: seq<byte>, chunks: Chunks, payloads: seq<seq<byte>>)
    requires |next| < BUFFERSIZE && Open(chunks) && TextMessages(next + Flat(chunks), payloads)
    ensures var s := Serve(next, chunks);
            && s.delivered <= payloads
            && (s.delivered == payloads <==>
                HeadersArrive(|next|, Lengths(chunks), Extents(next + Flat(chunks), |payloads|)))
            && (s.delivered == payloads ==> s.status == CLOSE_PROTOCOL)
  {
    hide *;
    SessionReceives(next, chunks, payloads);
    TextsAreFrames(next + Flat(chunks), payloads);
    ReceivesByBoundaries(next, chunks, |payloads|);
  }

  // ----- streams that are not delivered -----

  /** The mask of zeros changes nothing. */
  lemma ZeroMask(data: seq<byte>)
    requires |data| <= 1 && (data != [] ==> data[0] == 65)
    ensures Masked(data, [0, 0, 0, 0]) == data
  {
    hide XorBits;
    NothingFlips();
  }

  lemma NothingFlips()
    ensures XorBits(65, 0, 8) == 65
  {
    assert XorBits(1, 0, 2) == 1;
    assert XorBits(8, 0, 5) == 8;
  }

  lemma ParseOneByte(stream: seq<byte>)
    requires stream == [0x81, 0x81, 0, 0, 0, 0, 65]
    ensures Parse(stream) == Parsed(true, 0, 1, true, [0, 0, 0, 0], [65], [])
  {
    assert HeaderSize(0x81) == 6 && PayloadLength(stream) == 1;
    assert stream[2..6] == [0, 0, 0, 0] && stream[6..7] == [65] && stream[7..] == [];
  }

  /** A read that ends after the first byte of a frame makes the server close the connection. */
  lemma CutHeaderIsLost()
    ensures var chunks := [[0x81], [0x81, 0, 0, 0, 0, 65]];
            TextMessages(Flat(chunks), [[65]]) && Serve([], chunks) == Session([], CLOSE_PROTOCOL)
  {
    var chunks := [[0x81], [0x81, 0, 0, 0, 0, 65]];
    var stream := [0x81, 0x81, 0, 0, 0, 0, 65];
    assert Flat(chunks) == stream;
    ParseOneByte(stream);
    ZeroMask([65]);
    assert AtHand([], chunks) == [0x81];
  }

  /** A last message without payload is never delivered when it was read together with the one before. */
  lemma LastEmptyIsLost(next: seq<byte>)
    requires |next| < BUFFERSIZE && TextMessages(next, [[]])
    ensures Serve(next, []) == Session([], CLOSE_PROTOCOL)
  {
    hide PayloadLength, HeaderSize;
    MaskedHeader(next[1]);
    NeedsReadExactly(next);
  }

  // ----- a cutting that always works -----

  /** Each read finds at least 14 bytes, the longest header, unless it is the last one; and none finds
      more than fits behind a carried-over header. */
  ghost predicate Sized(chunks: Chunks) {
    && (forall i :: 0 <= i < |chunks| ==> 0 < |chunks[i]| <= BUFFERSIZE - 14)
    && (forall i :: 0 <= i < |chunks| - 1 ==> |chunks[i]| >= 14)
  }

  lemma SizedRead(chunks: Chunks, room: nat)
    requires Sized(chunks) && room >= BUFFERSIZE - 14
    ensures Sized(Left(chunks, room)) && Open(chunks)
    ensures chunks != [] ==> Taken(chunks, room) == chunks[0] && Left(chunks, room) == chunks[1..]
  {
  }

  lemma {:induction false} SizedGather(data: seq<byte>, len: nat, chunks: Chunks)
    requires |data| < len && Sized(chunks)
    ensures var g := Gather(data, len, chunks); g.Whole? ==> Sized(g.left)
    decreases |Flat(chunks)|
  {
    hide Sized;
    SizedRead(chunks, BUFFERSIZE);
    var c, left := Taken(chunks, BUFFERSIZE), Left(chunks, BUFFERSIZE);
    if c != [] && |data| + |c| < len {
      ReadShrinks(chunks, BUFFERSIZE);
      SizedGather(data + c, len, left);
    }
  }

  lemma SizedReceive(next: seq<byte>, chunks: Chunks)
    requires |next| <= BUFFERSIZE && Sized(chunks)
    ensures var r := Receive(next, chunks); r.Received? ==> Sized(r.left)
  {
    hide Sized, Gather, PayloadLength, HeaderSize, Masked;
    var got, left := AtHand(next, chunks), NotYetRead(next, chunks);
    if NeedsRead(next) {
      SizedRead(chunks, BUFFERSIZE - |next|);
    }
    var buffer := Buffered(got);
    var skip, len := HeaderSize(buffer[1]), PayloadLength(buffer);
    if skip <= |got| && |got[skip..]| < len {
      SizedGather(got[skip..], len, left);
    }
  }

  /** A read is needed exactly when there is no more than a masked header. */
  lemma NeedsReadExactly(next: seq<byte>)
    requires |next| >= 2 && next[1] >= 128
    ensures NeedsRead(next) <==> |next| <= HeaderSize(next[1])
    ensures HeaderSize(next[1]) <= 14
  {
  }

  lemma SizedAtHand(next: seq<byte>, chunks: Chunks)
    requires |next| < BUFFERSIZE && Sized(chunks)
    ensures var got := AtHand(next, chunks);
            && (!NeedsRead(next) ==> got == next)
            && (NeedsRead(next) && chunks != [] ==> |got| > |next| && (|got| >= 14 || got == next + Flat(chunks)))
            && (chunks == [] ==> next + Flat(chunks) == next)
    ensures forall i :: 0 <= i < |AtHand(next, chunks)| ==> AtHand(next, chunks)[i] == (next + Flat(chunks))[i]
  {
    hide Sized;
    AtHandConserves(next, chunks);
    if NeedsRead(next) && chunks != [] {
      SizedRead(chunks, BUFFERSIZE - |next|);
      LastOrLong(chunks);
      assert Flat(chunks) == chunks[0] + Flat(chunks[1..]);
    }
  }

  /** The header of a message that is not empty is always complete when it is looked at. */
  lemma SizedHeaderArrives(next: seq<byte>, chunks: Chunks)
    requires |next| < BUFFERSIZE && Sized(chunks)
    requires ClientFrame(Parse(next + Flat(chunks))) && Parse(next + Flat(chunks)).data != []
    ensures HeaderArrives(next, chunks)
  {
    hide Sized, HeaderSize, NeedsRead, Parse, ClientFrame, AtHand, Flat;
    var stream, got := next + Flat(chunks), AtHand(next, chunks);
    NonEmptyFrame(stream);
    NeedsReadExactly(stream);
    SizedAtHand(next, chunks);
    if |next| < 2 {
      ShortNeedsRead(next);
    } else {
      NeedsReadExactly(next);
    }
  }

  lemma ShortNeedsRead(next: seq<byte>)
    requires |next| < 2
    ensures NeedsRead(next)
  {
  }

  lemma NonEmptyFrame(stream: seq<byte>)
    requires ClientFrame(Parse(stream)) && Parse(stream).data != []
    ensures |stream| >= 2 && stream[1] >= 128 && |stream| > HeaderSize(stream[1])
  {
    hide PayloadLength;
  }

  lemma LastOrLong(chunks: Chunks)
    requires Sized(chunks) && chunks != []
    ensures chunks[0] != [] && (|chunks[0]| >= 14 || Flat(chunks[1..]) == [])
  {
    if |chunks| == 1 {
      assert chunks[1..] == [];
    }
  }

  lemma {:induction false} SizedReceivesAll(next: seq<byte>, chunks: Chunks, payloads: seq<seq<byte>>)
    requires |next| < BUFFERSIZE && Sized(chunks) && TextMessages(next + Flat(chunks), payloads)
    requires [] !in payloads
    ensures ReceivesAll(next, chunks, |payloads|)
    decreases |payloads|
  {
    hide Receive, Parse, Masked, Sized, Open, HeaderArrives, Flat, Verdict, Serve;
    if payloads != [] {
      SizedRead(chunks, BUFFERSIZE);
      assert payloads[0] in payloads;
      SizedHeaderArrives(next, chunks);
      SizedReceive(next, chunks);
      FrameReceived(next, chunks);
      assert forall p <- payloads[1..] :: p in payloads;
      var r := Receive(next, chunks);
      SizedReceivesAll(r.carried, r.left, payloads[1..]);
    }
  }

  /** With such reads every message that is not empty is delivered. */
  lemma SizedDelivers(next: seq<byte>, chunks: Chunks, payloads: seq<seq<byte>>)
    requires |next| < BUFFERSIZE && Sized(chunks) && TextMessages(next + Flat(chunks), payloads)
    requires [] !in payloads
    ensures Serve(next, chunks).delivered == payloads
  {
    hide Receive, Parse, Masked, Sized, Open, HeaderArrives, Flat, Verdict, Serve;
    SizedRead(chunks, BUFFERSIZE);
    SessionReceives(next, chunks, payloads);
    SizedReceivesAll(next, chunks, payloads);
  }
}
