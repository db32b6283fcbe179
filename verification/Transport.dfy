/** `transport.py`: length-prefixed frames over a byte stream. */
module Transport {
  import opened ByteCodec
  import opened Wrappers

  const HEADER_SIZE: nat := 4
  const MAX_FRAME_SIZE: nat := 0x100000

  /** `ConnectionError` and the two uses of `FrameError`. */
  datatype TransportError = ConnectionClosed | OversizedClaim(claimed: nat) | OversizedSend(size: nat)

  lemma LengthFits(n: nat)
    requires n <= MAX_FRAME_SIZE
    ensures n < Pow256(HEADER_SIZE)
  {
    assert Pow256(4) == 256 * (256 * (256 * (256 * Pow256(0))));
  }

  function EncodeFrame(data: Bytes): Bytes
    requires |data| <= MAX_FRAME_SIZE
  {
    LengthFits(|data|);
    BigEndian(|data|, HEADER_SIZE) + data
  }

  /** Reading `n` bytes off a stream that ends where `stream` ends. */
  function ReadExact(stream: Bytes, n: nat): (Result<Bytes, TransportError>, Bytes) {
    if |stream| < n then (Failure(ConnectionClosed), []) else (Success(stream[..n]), stream[n..])
  }

  /** Reading one frame: what is returned and what is left of the stream. */
  function ReadFrame(stream: Bytes): (Result<Bytes, TransportError>, Bytes) {
    var (header, rest) := ReadExact(stream, HEADER_SIZE);
    match header
    case Failure(e) => (Failure(e), rest)
    case Success(h) =>
      var length := FromBigEndian(h);
      if length > MAX_FRAME_SIZE then (Failure(OversizedClaim(length)), rest) else ReadExact(rest, length)
  }

  /** A connected socket: the bytes that will still arrive before the peer closes, and the bytes sent. */
  class Socket {
    var incoming: Bytes
    var outgoing: Bytes

    constructor (incoming: Bytes)
      ensures this.incoming == incoming && outgoing == []
    {
      this.incoming, outgoing := incoming, [];
    }

    /** `sock.recv(n)`: some of the bytes that are due, any number up to `n`; none once the peer closed. */
    method Recv(n: nat) returns (chunk: Bytes)
      requires n > 0
      modifies this`incoming
      ensures old(incoming) == chunk + incoming && |chunk| <= n
      ensures chunk == [] <==> old(incoming) == []
    {
      if incoming == [] {
        return [];
      }
      var k: nat :| 1 <= k <= n && k <= |incoming|;
      chunk, incoming := incoming[..k], incoming[k..];
    }

    method SendAll(data: Bytes)
      modifies this`outgoing
      ensures outgoing == old(outgoing) + data
    {
      outgoing := outgoing + data;
    }
  }

  method SendBytes(sock: Socket, data: Bytes) returns (r: Result<(), TransportError>)
    modifies sock`outgoing
    ensures |data| <= MAX_FRAME_SIZE ==> r == Success(()) && sock.outgoing == old(sock.outgoing) + EncodeFrame(data)
    ensures |data| > MAX_FRAME_SIZE ==> r == Failure(OversizedSend(|data|)) && sock.outgoing == old(sock.outgoing)
  {
    if |data| > MAX_FRAME_SIZE {
      return Failure(OversizedSend(|data|));
    }
    sock.SendAll(EncodeFrame(data));
    r := Success(());
  }

  method RecvExact(sock: Socket, n: nat) returns (r: Result<Bytes, TransportError>)
    modifies sock`incoming
    ensures r == ReadExact(old(sock.incoming), n).0 && sock.incoming == ReadExact(old(sock.incoming), n).1
  {
    var buf := [];
    ghost var stream := sock.incoming;
    while |buf| < n
      invariant |buf| <= n && stream == buf + sock.incoming
      decreases n - |buf|
    {
      var chunk := sock.Recv(n - |buf|);
      if chunk == [] {
        return Failure(ConnectionClosed);
      }
      buf := buf + chunk;
    }
    assert stream[..n] == buf && stream[n..] == sock.incoming;
    r := Success(buf);
  }

  method RecvBytes(sock: Socket) returns (r: Result<Bytes, TransportError>)
    modifies sock`incoming
    ensures r == ReadFrame(old(sock.incoming)).0 && sock.incoming == ReadFrame(old(sock.incoming)).1
    ensures r.Success? ==> |r.value| <= MAX_FRAME_SIZE && old(sock.incoming) == EncodeFrame(r.value) + sock.incoming
    ensures forall f | |f| <= MAX_FRAME_SIZE && EncodeFrame(f) <= old(sock.incoming) :: r == Success(f)
    ensures Claims(old(sock.incoming)).Some? && Claims(old(sock.incoming)).value > MAX_FRAME_SIZE ==>
              && r == Failure(OversizedClaim(Claims(old(sock.incoming)).value))
              && sock.incoming == old(sock.incoming)[HEADER_SIZE..]
  {
    ghost var stream := sock.incoming;
    OversizedClaimStops(stream);
    forall f
      ensures ReadFrame(stream).0 == Success(f) <==> |f| <= MAX_FRAME_SIZE && EncodeFrame(f) <= stream
      ensures ReadFrame(stream).0 == Success(f) ==> stream == EncodeFrame(f) + ReadFrame(stream).1
    {
      ReadsOnlyFrames(stream, f);
    }
    var header := RecvExact(sock, HEADER_SIZE);
    if header.Failure? {
      return header;
    }
    var length := FromBigEndian(header.value);
    if length > MAX_FRAME_SIZE {
      return Failure(OversizedClaim(length));
    }
    r := RecvExact(sock, length);
  }

  // ----- properties

  function EncodeAll(frames: seq<Bytes>): Bytes
    requires Sendable(frames)
  {
    if frames == [] then [] else EncodeFrame(frames[0]) + EncodeAll(frames[1..])
  }

  /** Everything that repeated reading yields before the first error, and that error. */
  function ReadAll(stream: Bytes): (seq<Bytes>, TransportError)
    decreases |stream|
  {
    var (r, rest) := ReadFrame(stream);
    match r
    case Failure(e) => ([], e)
    case Success(f) =>
      var (more, e) := ReadAll(rest);
      ([f] + more, e)
  }

  /** A whole frame at the head of a stream is read back, and nothing of what follows is touched. */
  lemma ReadEncoded(data: Bytes, rest: Bytes)
    requires |data| <= MAX_FRAME_SIZE
    ensures ReadFrame(EncodeFrame(data) + rest) == (Success(data), rest)
  {
    LengthFits(|data|);
    DecodeEncode(|data|, HEADER_SIZE);
    var stream := EncodeFrame(data) + rest;
    assert stream[..HEADER_SIZE] == BigEndian(|data|, HEADER_SIZE);
    assert stream[HEADER_SIZE..] == data + rest;
    assert (data + rest)[..|data|] == data && (data + rest)[|data|..] == rest;
  }

  /** The size that the next four bytes announce. */
  function Claims(stream: Bytes): Option<nat> {
    if |stream| < HEADER_SIZE then None else Some(FromBigEndian(stream[..HEADER_SIZE]))
  }

  /** Whatever arrives, from whomever: a frame is read if and only if it is within the limit and its encoding
      stands at the head of the stream, and then that encoding is consumed and no more. */
  lemma ReadsOnlyFrames(stream: Bytes, f: Bytes)
    ensures ReadFrame(stream).0 == Success(f) <==> |f| <= 0x10_0000 && EncodeFrame(f) <= stream
    ensures ReadFrame(stream).0 == Success(f) ==> stream == EncodeFrame(f) + ReadFrame(stream).1
  {
    if |f| <= MAX_FRAME_SIZE && EncodeFrame(f) <= stream {
      ReadEncoded(f, stream[|EncodeFrame(f)|..]);
      assert stream == EncodeFrame(f) + stream[|EncodeFrame(f)|..];
    }
    if ReadFrame(stream).0 == Success(f) {
      var header := stream[..HEADER_SIZE];
      EncodeDecode(header);
      assert stream == header + stream[HEADER_SIZE..] && stream[HEADER_SIZE..] == f + ReadFrame(stream).1;
      assert stream == header + f + ReadFrame(stream).1;
    }
  }

  /** A peer that claims more than the limit is cut off after the four bytes of its claim; and the close is
      reported if and only if neither a claim beyond the limit nor a whole frame arrived. */
  lemma OversizedClaimStops(stream: Bytes)
    ensures forall n: nat :: ReadFrame(stream).0 == Failure(OversizedClaim(n)) <==>
                        Claims(stream) == Some(n) && n > 0x10_0000
    ensures ReadFrame(stream).0.Failure? && ReadFrame(stream).0.error.OversizedClaim? ==>
              ReadFrame(stream).1 == stream[HEADER_SIZE..]
    ensures ReadFrame(stream).0 == Failure(ConnectionClosed) <==>
              match Claims(stream)
              case None => true
              case Some(n) => n <= MAX_FRAME_SIZE && |stream| < HEADER_SIZE + n
    ensures ReadFrame(stream).0 == Failure(ConnectionClosed) ==> ReadFrame(stream).1 == []
  {
  }

  lemma EncodingsFollow(first: Bytes, later: seq<Bytes>, stream: Bytes)
    requires |first| <= MAX_FRAME_SIZE && Sendable(later)
    ensures Sendable([first] + later)
    ensures EncodeAll([first] + later) <= stream <==>
              EncodeFrame(first) <= stream && EncodeAll(later) <= stream[|EncodeFrame(first)|..]
    ensures EncodeAll([first] + later) <= stream ==>
              stream[|EncodeAll([first] + later)|..] == stream[|EncodeFrame(first)|..][|EncodeAll(later)|..]
  {
    EncodeOneMore(first, later);
    var head, tail := EncodeFrame(first), EncodeAll(later);
    if head + tail <= stream {
      assert stream[..|head| + |tail|] == head + tail;
      assert stream[..|head|] == (head + tail)[..|head|] == head;
      assert stream[|head|..][..|tail|] == (head + tail)[|head|..] == tail;
    }
    if head <= stream && tail <= stream[|head|..] {
      assert stream == head + stream[|head|..] && stream[|head|..] == tail + stream[|head|..][|tail|..];
    }
  }

  /** The frames stand encoded at the head of the stream, and reading on fails with `e`. */
  predicate StandsAtHead(frames: seq<Bytes>, stream: Bytes, e: TransportError) {
    && Sendable(frames) && EncodeAll(frames) <= stream
    && ReadFrame(stream[|EncodeAll(frames)|..]).0 == Failure(e)
  }

  lemma StandsAfterFirst(first: Bytes, later: seq<Bytes>, stream: Bytes, rest: Bytes, e: TransportError)
    requires ReadFrame(stream) == (Success(first), rest)
    ensures StandsAtHead([first] + later, stream, e) <==> StandsAtHead(later, rest, e)
  {
    ReadsOnlyFrames(stream, first);
    assert stream[|EncodeFrame(first)|..] == rest;
    if Sendable([first] + later) {
      assert Sendable(later) by {
        forall f | f in later ensures f in [first] + later {}
      }
    }
    if Sendable(later) {
      EncodingsFollow(first, later, stream);
    }
  }

  lemma FirstIsRead(frames: seq<Bytes>, stream: Bytes, e: TransportError)
    requires frames != [] && StandsAtHead(frames, stream, e)
    ensures ReadFrame(stream).0 == Success(frames[0])
  {
    assert frames == [frames[0]] + frames[1..] && frames[0] in frames;
    EncodingsFollow(frames[0], frames[1..], stream);
    ReadsOnlyFrames(stream, frames[0]);
  }

  /** Main result for hostile streams: repeated reading yields exactly the list of frames within the limit that
      stand encoded at the head of the stream, and stops at the error that follows them. */
  lemma {:induction false} ReadAllExactly(stream: Bytes, frames: seq<Bytes>, e: TransportError)
    ensures ReadAll(stream) == (frames, e) <==> StandsAtHead(frames, stream, e)
    decreases |stream|
  {
    var (r, rest) := ReadFrame(stream);
    if frames == [] {
      assert stream[0..] == stream;
    } else if r == Success(frames[0]) {
      assert frames == [frames[0]] + frames[1..];
      ReadsOnlyFrames(stream, frames[0]);
      StandsAfterFirst(frames[0], frames[1..], stream, rest, e);
      ReadAllExactly(rest, frames[1..], e);
    } else if StandsAtHead(frames, stream, e) {
      FirstIsRead(frames, stream, e);
    }
  }

  /** A frame cut short anywhere is never mistaken for a frame: reading it reports the closed connection. */
  lemma ReadCutShort(data: Bytes, cut: nat)
    requires |data| <= MAX_FRAME_SIZE && cut < |EncodeFrame(data)|
    ensures ReadFrame(EncodeFrame(data)[..cut]).0 == Failure(ConnectionClosed)
  {
    if cut >= HEADER_SIZE {
      LengthFits(|data|);
      DecodeEncode(|data|, HEADER_SIZE);
      assert EncodeFrame(data)[..cut][..HEADER_SIZE] == BigEndian(|data|, HEADER_SIZE);
    }
  }

  lemma ReadOneMore(data: Bytes, rest: Bytes)
    requires |data| <= MAX_FRAME_SIZE
    ensures ReadAll(EncodeFrame(data) + rest) == ([data] + ReadAll(rest).0, ReadAll(rest).1)
  {
    ReadEncoded(data, rest);
  }

  predicate Sendable(frames: seq<Bytes>) {
    forall f | f in frames :: |f| <= MAX_FRAME_SIZE
  }

  lemma EncodeOneMore(data: Bytes, frames: seq<Bytes>)
    requires |data| <= MAX_FRAME_SIZE && Sendable(frames)
    ensures Sendable([data] + frames) && EncodeAll([data] + frames) == EncodeFrame(data) + EncodeAll(frames)
  {
    assert ([data] + frames)[1..] == frames;
  }

  lemma NoneArrivedWhole(data: Bytes, tail: Bytes, cut: nat)
    requires |data| <= MAX_FRAME_SIZE && cut < |EncodeFrame(data)|
    ensures ReadAll((EncodeFrame(data) + tail)[..cut]) == ([], ConnectionClosed)
  {
    assert (EncodeFrame(data) + tail)[..cut] == EncodeFrame(data)[..cut];
    ReadCutShort(data, cut);
  }

  lemma CutAfterFirst(head: Bytes, tail: Bytes, cut: nat)
    requires |head| <= cut <= |head| + |tail|
    ensures (head + tail)[..cut] == head + tail[..cut - |head|]
  {
  }

  /** One whole frame more at the head of what arrives. */
  lemma FirstArrived(first: Bytes, later: seq<Bytes>, cut: nat, rest: seq<Bytes>)
    requires |first| <= MAX_FRAME_SIZE && Sendable(later) && Sendable(rest)
    requires |EncodeFrame(first)| <= cut <= |EncodeFrame(first)| + |EncodeAll(later)|
    requires ReadAll(EncodeAll(later)[..cut - |EncodeFrame(first)|]) == (rest, ConnectionClosed)
    ensures ReadAll((EncodeFrame(first) + EncodeAll(later))[..cut]) == ([first] + rest, ConnectionClosed)
    ensures Sendable([first] + rest) && |EncodeAll([first] + rest)| == |EncodeFrame(first)| + |EncodeAll(rest)|
  {
    var head, tail := EncodeFrame(first), EncodeAll(later);
    CutAfterFirst(head, tail, cut);
    ReadOneMore(first, tail[..cut - |head|]);
    EncodeOneMore(first, rest);
  }

  /** Main result: however the stream of sent frames is cut off, reading yields the frames that arrived
      whole, in order, and then the closed connection; only the first missing one can have begun. */
  lemma {:induction false} ReadWhatArrivedWhole(frames: seq<Bytes>, cut: nat)
    returns (arrived: seq<Bytes>, missing: seq<Bytes>)
    requires Sendable(frames) && cut <= |EncodeAll(frames)|
    ensures frames == arrived + missing && Sendable(arrived) && Sendable(missing)
    ensures ReadAll(EncodeAll(frames)[..cut]) == (arrived, ConnectionClosed)
    ensures |EncodeAll(arrived)| <= cut
    ensures missing != [] ==> cut < |EncodeAll(arrived)| + |EncodeFrame(missing[0])|
    decreases |frames|
  {
    if frames == [] {
      arrived, missing := [], [];
    } else if cut < |EncodeFrame(frames[0])| {
      arrived, missing := [], frames;
      NoneArrivedWhole(frames[0], EncodeAll(frames[1..]), cut);
    } else {
      var rest;
      rest, missing := ReadWhatArrivedWhole(frames[1..], cut - |EncodeFrame(frames[0])|);
      arrived := [frames[0]] + rest;
      FirstArrived(frames[0], frames[1..], cut, rest);
    }
  }

  /** In particular, a stream that arrives completely yields exactly the frames sent. */
  lemma {:induction false} ReadAllSent(frames: seq<Bytes>)
    requires Sendable(frames)
    ensures ReadAll(EncodeAll(frames)) == (frames, ConnectionClosed)
  {
    if frames != [] {
      ReadAllSent(frames[1..]);
      ReadOneMore(frames[0], EncodeAll(frames[1..]));
      assert frames == [frames[0]] + frames[1..];
    }
  }
}
