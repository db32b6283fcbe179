/** From frames to bytes and back: what `encrypt` writes, framed by the transport and read off the stream, is
    what `decrypt` is given. */
module OnTheWire {
  import opened ByteCodec
  import opened Wrappers
  import opened SymbolicCrypto
  import opened WireFormat
  import opened Ratchet
  import opened Channel
  import opened TwoParty
  import opened Conversation
  import Transport

  /** How ciphertexts look as bytes, and what bytes are taken for. */
  type Encode = Cipher -> Bytes
  type Decode = Bytes -> Cipher

  /** The encoding loses nothing of this frame's ciphertext and takes as many bytes as AES-GCM does. */
  predicate Encodes(enc: Encode, dec: Decode, p: Frame) {
    p.Parsed? ==> dec(enc(p.body)) == p.body && |enc(p.body)| == BodySize(p.body)
  }

  /** The bytes that `encrypt` returns; it never returns a frame whose header cannot be written. */
  function Written(p: Frame, enc: Encode): Bytes {
    if p.Parsed? && Writable(p.aad) then BuildHeader(p.aad) + enc(p.body) else []
  }

  /** What `decrypt` makes of bytes. */
  function Understood(framed: Bytes, dec: Decode): Frame {
    match ParseFrame(framed)
    case Parsed(aad, body) => Parsed(aad, dec(body))
    case FrameTooShort => FrameTooShort
    case TooShortForKey => TooShortForKey
    case InvalidFlag(flag) => InvalidFlag(flag)
  }

  lemma WrittenIsUnderstood(p: Frame, enc: Encode, dec: Decode)
    requires p.Parsed? && Writable(p.aad) && Encodes(enc, dec, p)
    ensures Understood(Written(p, enc), dec) == p && |Written(p, enc)| == WireSize(p)
  {
    ParseBuild(p.aad, enc(p.body));
  }

  // ----- one direction of a conversation as a stream

  /** The frame of this message, if `who` is its speaker. */
  function FrameBy(cfg: Config, now: Sys, t: Talk, who: Party): seq<Frame> {
    if t.who == who && FrameOf(cfg, now, t).Success? then [FrameOf(cfg, now, t).value] else []
  }

  /** The frames that `who` sends in the conversation, in order. */
  function FramesBy(cfg: Config, sys: Sys, ts: seq<Talk>, who: Party): seq<Frame> {
    if ts == [] then []
    else FramesBy(cfg, sys, ts[..|ts| - 1], who) + FrameBy(cfg, After(cfg, sys, ts[..|ts| - 1]), ts[|ts| - 1], who)
  }

  lemma FramesOfOneMore(cfg: Config, sys: Sys, ts: seq<Talk>, t: Talk, who: Party)
    ensures FramesBy(cfg, sys, ts + [t], who) == FramesBy(cfg, sys, ts, who) + FrameBy(cfg, After(cfg, sys, ts), t, who)
  {
    assert (ts + [t])[..|ts|] == ts;
  }

  lemma FramesByStep(cfg: Config, sys: Sys, ts: seq<Talk>, n: nat, who: Party, now: Sys)
    requires n < |ts| && now == After(cfg, sys, ts[..n])
    ensures FramesBy(cfg, sys, ts[..n + 1], who) == FramesBy(cfg, sys, ts[..n], who) + FrameBy(cfg, now, ts[n], who)
  {
    FramesOfOneMore(cfg, sys, ts[..n], ts[n], who);
    assert ts[..n + 1] == ts[..n] + [ts[n]];
  }

  predicate Transportable(p: Frame) {
    p.Parsed? && Writable(p.aad) && WireSize(p) <= Transport.MAX_FRAME_SIZE
  }

  predicate AllTransportable(frames: seq<Frame>) {
    forall p | p in frames :: Transportable(p)
  }

  function AllWritten(frames: seq<Frame>, enc: Encode): seq<Bytes> {
    seq(|frames|, i requires 0 <= i < |frames| => Written(frames[i], enc))
  }

  lemma MessageIsTransportable(cfg: Config, now: Sys, t: Talk, who: Party)
    requires Sayable(cfg, now, t)
    ensures AllTransportable(FrameBy(cfg, now, t, who))
  {
    var frame := FrameOf(cfg, now, t);
    if frame.Success? {
      FrameTakes(cfg, Mine(now, t.who).ch, t.text, t.timeDue, t.newPriv, frame.value);
    }
  }

  /** Every frame of the conversation can be written and fits the transport. */
  lemma {:induction false} FramesAreTransportable(cfg: Config, sys: Sys, ts: seq<Talk>, n: nat, who: Party)
    requires SayableAll(cfg, sys, ts) && n <= |ts|
    ensures AllTransportable(FramesBy(cfg, sys, ts[..n], who))
  {
    if n > 0 {
      var now := After(cfg, sys, ts[..n - 1]);
      FramesAreTransportable(cfg, sys, ts, n - 1, who);
      FramesByStep(cfg, sys, ts, n - 1, who, now);
      SayablePrefix(cfg, sys, ts, n - 1);
      MessageIsTransportable(cfg, now, ts[n - 1], who);
    }
  }

  lemma PrefixGrows(a: seq<Frame>, b: seq<Frame>, more: seq<Frame>)
    requires a <= b
    ensures a <= b + more
  {
  }

  lemma SplitLast(ts: seq<Talk>, more: seq<Talk>)
    requires more != []
    ensures ts + more == (ts + more[..|more| - 1]) + [more[|more| - 1]]
  {
  }

  lemma {:induction false} FramesOfPrefix(cfg: Config, sys: Sys, ts: seq<Talk>, more: seq<Talk>, who: Party,
                                          first: seq<Frame>, whole: seq<Frame>)
    requires first == FramesBy(cfg, sys, ts, who) && whole == FramesBy(cfg, sys, ts + more, who)
    ensures first <= whole
    decreases |more|
  {
    if more == [] {
      assert ts + more == ts;
    } else {
      var longer, t := ts + more[..|more| - 1], more[|more| - 1];
      var almost, last := FramesBy(cfg, sys, longer, who), FrameBy(cfg, After(cfg, sys, longer), t, who);
      SplitLast(ts, more);
      FramesOfOneMore(cfg, sys, longer, t, who);
      FramesOfPrefix(cfg, sys, ts, more[..|more| - 1], who, first, almost);
      PrefixGrows(first, almost, last);
    }
  }

  /** Message `n` travels as the frame after those its speaker sent before it. */
  lemma FrameInStream(cfg: Config, sys: Sys, ts: seq<Talk>, n: nat, now: Sys, p: Frame, k: nat)
    requires n < |ts| && now == After(cfg, sys, ts[..n]) && FrameOf(cfg, now, ts[n]) == Success(p)
    requires k == |FramesBy(cfg, sys, ts[..n], ts[n].who)|
    ensures k < |FramesBy(cfg, sys, ts, ts[n].who)| && FramesBy(cfg, sys, ts, ts[n].who)[k] == p
  {
    var before, t, later, who := ts[..n], ts[n], ts[n + 1..], ts[n].who;
    assert before + [t] + later == ts;
    FramesOfOneMore(cfg, sys, before, t, who);
    var first, whole := FramesBy(cfg, sys, before, who), FramesBy(cfg, sys, ts, who);
    FramesOfPrefix(cfg, sys, before + [t], later, who, first + [p], whole);
    NextInPrefix(first, p, whole);
  }

  lemma NextInPrefix(first: seq<Frame>, p: Frame, whole: seq<Frame>)
    requires first + [p] <= whole
    ensures |first| < |whole| && whole[|first|] == p
  {
    assert (first + [p])[|first|] == p;
  }

  /** A stream of written frames is read back as the frames it was made from. */
  lemma StreamIsUnderstood(frames: seq<Frame>, enc: Encode, dec: Decode, wire: seq<Bytes>)
    requires AllTransportable(frames) && wire == AllWritten(frames, enc)
    requires forall p | p in frames :: Encodes(enc, dec, p)
    ensures Transport.Sendable(wire)
    ensures Transport.ReadAll(Transport.EncodeAll(wire)) == (wire, Transport.ConnectionClosed)
    ensures forall i | 0 <= i < |frames| :: Understood(wire[i], dec) == frames[i]
  {
    forall i | 0 <= i < |frames|
      ensures Understood(wire[i], dec) == frames[i] && |wire[i]| <= Transport.MAX_FRAME_SIZE
    {
      assert frames[i] in frames;
      WrittenIsUnderstood(frames[i], enc, dec);
    }
    Transport.ReadAllSent(wire);
  }

  /** Main result: everything one party says in a conversation, written as bytes and framed into one stream.
      The stream is read back as just these byte strings, and for each message of the party, the one in
      its place is understood as the frame that its partner, when it is said, opens to its text. The
      encoding of ciphertexts need only be lossless on the frames of the conversation. */
  lemma ConversationOverStream(cfg: Config, sys: Sys, ts: seq<Talk>, n: nat, enc: Encode, dec: Decode,
                               frames: seq<Frame>, wire: seq<Bytes>, k: nat, now: Sys)
    requires InTouch(cfg, sys) && SayableAll(cfg, sys, ts) && cfg.windowSize <= MAX_SKIP + 1
    requires n < |ts| && now == After(cfg, sys, ts[..n])
    requires frames == FramesBy(cfg, sys, ts, ts[n].who) && wire == AllWritten(frames, enc)
    requires k == |FramesBy(cfg, sys, ts[..n], ts[n].who)|
    requires forall p | p in frames :: Encodes(enc, dec, p)
    ensures Transport.Sendable(wire)
    ensures Transport.ReadAll(Transport.EncodeAll(wire)) == (wire, Transport.ConnectionClosed)
    ensures k < |wire| && FrameOf(cfg, now, ts[n]) == Success(Understood(wire[k], dec))
    ensures Decrypted(cfg, Peer(now, ts[n].who).ch, Understood(wire[k], dec)).1 == Success(ts[n].text)
  {
    ConversationIsHeard(cfg, sys, ts, n, now);
    FrameInStream(cfg, sys, ts, n, now, FrameOf(cfg, now, ts[n]).value, k);
    FramesAreTransportable(cfg, sys, ts, |ts|, ts[n].who);
    assert ts[..|ts|] == ts;
    StreamIsUnderstood(frames, enc, dec, wire);
  }
}
