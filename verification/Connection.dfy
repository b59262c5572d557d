/** What the server makes of any frames of a client, told from the frames as the parser reads them. */
module Connection {
  import opened Bytes
  import opened Frame
  import opened Stream

  // ----- one frame -----

  /** The status that a complete frame of a client calls for: text is taken, everything else ends the connection. */
  function StatusOf(f: Parsed): Status
    requires f.Parsed?
  {
    if !f.fin then FRAGMENT
    else if f.rsv != 0 then CLOSE_UNEXPECTED
    else
      match f.opcode
      case 1 => CONTINUE
      case 8 => CLOSE_NORMAL
      case 2 => CLOSE_TYPE
      case 9 => CLOSE_TYPE
      case 10 => CLOSE_TYPE
      case _ => CLOSE_UNEXPECTED
  }

  predicate IsText(f: Parsed) {
    f.Parsed? && f.fin && f.rsv == 0 && f.opcode == 1
  }

  /** The first byte of a frame decides as its final bit, reserved bits and opcode do. */
  lemma VerdictOfFrame(stream: seq<byte>)
    requires Parse(stream).Parsed?
    ensures |stream| >= 2 && Verdict(stream[0]) == StatusOf(Parse(stream))
  {
    hide HeaderSize, PayloadLength;
    var b := stream[0];
    assert b >= 128 ==> b == 128 + 16 * (b / 16 % 8) + b % 16;
  }

  /** With its header at hand, the status of a received frame by the parts of the frame. */
  lemma ReceivedStatus(next: seq<byte>, chunks: Chunks)
    requires |next| < BUFFERSIZE && Open(chunks) && ClientFrame(Parse(next + Flat(chunks)))
            && HeaderArrives(next, chunks)
    ensures Receive(next, chunks).Received?
    ensures var f, status := Parse(next + Flat(chunks)), Verdict(Receive(next, chunks).first);
            && (status == CONTINUE <==> f.fin && f.rsv == 0 && f.opcode == 1)
            && (status == CLOSE_NORMAL <==> f.fin && f.rsv == 0 && f.opcode == 8)
            && (status == CLOSE_TYPE <==> f.fin && f.rsv == 0 && f.opcode in {2, 9, 10})
            && (status == FRAGMENT <==> !f.fin)
            && (status == CLOSE_UNEXPECTED <==> f.fin && (f.rsv != 0 || f.opcode !in {1, 2, 8, 9, 10}))
  {
    hide Parse, Receive, Verdict, HeaderArrives, Open, Flat, ClientFrame, Masked;
    FrameReceived(next, chunks);
    FrameIsParsed(next + Flat(chunks));
    VerdictOfFrame(next + Flat(chunks));
  }

  lemma FrameIsParsed(stream: seq<byte>)
    requires ClientFrame(Parse(stream))
    ensures Parse(stream).Parsed?
  {
  }

  // ----- frames that are refused -----

  /** What a complete header at hand leads to: an unmasked frame, a message that is too big and a stream that
      ends within the frame are each refused for their own reason, and every other frame is received. */
  lemma HeaderDecides(next: seq<byte>, chunks: Chunks)
    requires |next| < BUFFERSIZE && Open(chunks) && HeaderArrives(next, chunks)
    ensures var stream := next + Flat(chunks);
            && |stream| >= 2 && |stream| >= HeaderSize(stream[1])
            && var r, n := Receive(next, chunks), PayloadLength(stream);
               && (r == Closed(CLOSE_PROTOCOL) <==> stream[1] < 128)
               && (r == Closed(CLOSE_BIG) <==> stream[1] >= 128 && n > MAXMESSAGE)
               && (r == Closed(CLOSE_POLICY) <==> stream[1] >= 128 && n <= MAXMESSAGE && Parse(stream).Incomplete?)
               && (r.Received? <==> ClientFrame(Parse(stream)))
  {
    hide Gather, Masked, PayloadLength, Open, Flat, NeedsRead, Buffered, Parse, ClientFrame;
    AtHandConserves(next, chunks);
    var got, left := AtHand(next, chunks), NotYetRead(next, chunks);
    HeaderInBuffer(got, Flat(left));
    MaskedHeader(got[1]);
    ParsesWhenLong(next + Flat(chunks));
    assert next + Flat(chunks) == got + Flat(left);
    var h, n := HeaderSize(got[1]), PayloadLength(got + Flat(left));
    if |got[h..]| < n {
      GatherConserves(got[h..], n, left);
    }
  }

  lemma ParsesWhenLong(stream: seq<byte>)
    requires |stream| >= 2 && |stream| >= HeaderSize(stream[1])
    ensures var h, n := HeaderSize(stream[1]), PayloadLength(stream);
            && (Parse(stream).Incomplete? <==> |stream| < h + n)
            && (ClientFrame(Parse(stream)) <==> |stream| >= h + n && stream[1] >= 128 && n <= MAXMESSAGE)
  {
    hide PayloadLength;
  }

  // ----- a whole connection -----

  /** The frames of a stream, when there is nothing else in it. */
  predicate FramesOf(stream: seq<byte>, frames: seq<Parsed>)
    decreases |frames|
  {
    if frames == [] then stream == []
    else ClientFrame(Parse(stream)) && Parse(stream) == frames[0] && FramesOf(frames[0].rest, frames[1..])
  }

  /** The unmasked payloads of the text frames before the first frame of another kind. */
  function Texts(frames: seq<Parsed>): (payloads: seq<seq<byte>>)
    requires forall f <- frames :: ClientFrame(f)
    ensures |payloads| <= |frames|
  {
    if frames == [] || !IsText(frames[0]) then []
    else
      assert frames[0] in frames && ClientFrame(frames[0]);
      assert forall f <- frames[1..] :: f in frames;
      [Masked(frames[0].data, frames[0].mask)] + Texts(frames[1..])
  }

  /** How the connection ends when all frames up to there are received. */
  function EndStatus(frames: seq<Parsed>): Status
    requires forall f <- frames :: ClientFrame(f)
  {
    var n := |Texts(frames)|;
    if n == |frames| then CLOSE_PROTOCOL else assert frames[n] in frames; StatusOf(frames[n])
  }

  lemma {:induction false} AllClientFrames(stream: seq<byte>, frames: seq<Parsed>)
    requires FramesOf(stream, frames)
    ensures (forall f <- frames :: ClientFrame(f)) && ClientFrames(stream, |frames|)
    decreases |frames|
  {
    hide Parse;
    if frames != [] {
      AllClientFrames(frames[0].rest, frames[1..]);
      assert frames == [frames[0]] + frames[1..];
    }
  }

  lemma {:induction false} FewerFrames(stream: seq<byte>, m: nat, n: nat)
    requires m <= n && ClientFrames(stream, n)
    ensures ClientFrames(stream, m)
    decreases m
  {
    hide Parse;
    if m > 0 {
      FewerFrames(Parse(stream).rest, m - 1, n - 1);
    }
  }

  /** How many frames are looked at: the texts, and the frame of another kind that ends the connection. */
  function LookedAt(frames: seq<Parsed>): (n: nat)
    requires forall f <- frames :: ClientFrame(f)
    ensures |Texts(frames)| <= n <= |frames|
  {
    if |Texts(frames)| == |frames| then |frames| else |Texts(frames)| + 1
  }

  lemma {:induction false} SessionOfFrames(next: seq<byte>, chunks: Chunks, frames: seq<Parsed>)
    requires |next| < BUFFERSIZE && Open(chunks) && FramesOf(next + Flat(chunks), frames)
    requires forall f <- frames :: ClientFrame(f)
    ensures var s := Serve(next, chunks);
            && s.delivered <= Texts(frames)
            && (s.delivered == Texts(frames) <==> ReceivesAll(next, chunks, |Texts(frames)|))
            && (ReceivesAll(next, chunks, LookedAt(frames)) ==> s.status == EndStatus(frames))
    decreases |frames|
  {
    hide Receive, Parse, Masked, Open, HeaderArrives, Flat, Verdict, StatusOf, IsText;
    if frames == [] {
      NothingLeft(next, chunks);
    } else {
      assert frames[0] in frames;
      FrameReceived(next, chunks);
      FrameIsParsed(next + Flat(chunks));
      VerdictOfFrame(next + Flat(chunks));
      TextStatus(frames[0]);
      var r := Receive(next, chunks);
      if r.Received? && IsText(frames[0]) {
        assert forall f <- frames[1..] :: f in frames;
        SessionOfFrames(r.carried, r.left, frames[1..]);
        TextsStep(frames);
        LaterPrefix(Masked(frames[0].data, frames[0].mask), Serve(r.carried, r.left).delivered, Texts(frames[1..]));
      }
    }
  }

  lemma TextStatus(f: Parsed)
    requires f.Parsed?
    ensures IsText(f) <==> StatusOf(f) == CONTINUE
  {
  }

  lemma TextsStep(frames: seq<Parsed>)
    requires frames != [] && IsText(frames[0]) && forall f <- frames :: ClientFrame(f)
    ensures forall f <- frames[1..] :: ClientFrame(f)
    ensures ClientFrame(frames[0])
    ensures Texts(frames) == [Masked(frames[0].data, frames[0].mask)] + Texts(frames[1..])
    ensures LookedAt(frames) == LookedAt(frames[1..]) + 1 && EndStatus(frames) == EndStatus(frames[1..])
  {
    hide Masked, StatusOf, ClientFrame;
    assert frames[0] in frames && forall f <- frames[1..] :: f in frames;
  }

  lemma LaterPrefix(p: seq<byte>, a: seq<seq<byte>>, b: seq<seq<byte>>)
    ensures [p] + a <= [p] + b <==> a <= b
    ensures [p] + a == [p] + b <==> a == b
  {
    assert ([p] + a)[1..] == a && ([p] + b)[1..] == b;
  }

  /** For any frames of a client and any cutting of their bytes into reads, what is delivered are the payloads of the
      text frames before the first frame of another kind, as far as their headers arrive in one piece; and when
      the header of that frame arrives too, the connection ends as the frame calls for. */
  lemma SessionIsTexts(next: seq<byte>, chunks: Chunks, frames: seq<Parsed>)
    requires |next| < BUFFERSIZE && Open(chunks) && FramesOf(next + Flat(chunks), frames)
    ensures forall f <- frames :: ClientFrame(f)
    ensures var s, stream, n := Serve(next, chunks), next + Flat(chunks), |Texts(frames)|;
            && s.delivered <= Texts(frames)
            && (s.delivered == Texts(frames) <==> HeadersArrive(|next|, Lengths(chunks), Extents(stream, n)))
            && (HeadersArrive(|next|, Lengths(chunks), Extents(stream, LookedAt(frames))) ==>
                  s.status == EndStatus(frames))
  {
    hide Serve, ClientFrame, HeadersArrive, ReceivesAll, Extents, Lengths, Open, Flat, FramesOf, EndStatus,
      ClientFrames;
    var stream := next + Flat(chunks);
    AllClientFrames(stream, frames);
    FewerFrames(stream, |Texts(frames)|, |frames|);
    FewerFrames(stream, LookedAt(frames), |frames|);
    ReceivesByBoundaries(next, chunks, |Texts(frames)|);
    ReceivesByBoundaries(next, chunks, LookedAt(frames));
    SessionOfFrames(next, chunks, frames);
  }
}
