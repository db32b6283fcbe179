/** The frame header of `secure_channel.py`: a flag byte, a 32-byte ratchet key when the flag is 1, and
    an 8-byte big-endian counter. The rest of the frame is ciphertext. */
module WireFormat {
  import opened ByteCodec
  import opened Wrappers
  import opened SymbolicCrypto

  const FLAG_NO_REKEY: byte := 0
  const FLAG_REKEY: byte := 1
  const KEY_SIZE: nat := 32
  const COUNTER_SIZE: nat := 8
  const TAG_SIZE: nat := 16

  /** What `decrypt` reads off a frame before it does anything else. */
  datatype Parsed<C> =
    | FrameTooShort
    | TooShortForKey
    | InvalidFlag(flag: byte)
    | Parsed(aad: Aad, body: C)

  function BuildHeader(aad: Aad): Bytes
    requires aad.counter < Pow256(COUNTER_SIZE)
  {
    (match aad.announce
     case Some(pub) => [FLAG_REKEY] + pub.raw
     case None => [FLAG_NO_REKEY]) + BigEndian(aad.counter, COUNTER_SIZE)
  }

  function ParseFrame(framed: Bytes): Parsed<Bytes> {
    if |framed| < 9 then FrameTooShort
    else if framed[0] == FLAG_REKEY then
      if |framed| < 1 + KEY_SIZE + COUNTER_SIZE then TooShortForKey
      else Parsed(Aad(Some(PubKey(framed[1..33])), FromBigEndian(framed[33..41])), framed[41..])
    else if framed[0] == FLAG_NO_REKEY then
      Parsed(Aad(None, FromBigEndian(framed[1..9])), framed[9..])
    else InvalidFlag(framed[0])
  }

  /** How many bytes a frame takes: AES-GCM adds its tag to what it encrypts. */
  function WireSize(p: Parsed<Cipher>): nat {
    if !p.Parsed? then 0 else
    1 + (if p.aad.announce.Some? then |p.aad.announce.value.raw| else 0) + COUNTER_SIZE + BodySize(p.body)
  }

  function BodySize(c: Cipher): nat {
    match c
    case Sealed(_, _, _, payload) => |payload| + TAG_SIZE
    case Garbage(bytes) => |bytes|
  }

  /** A header that `encrypt` can write. */
  predicate Writable(aad: Aad) {
    && aad.counter < Pow256(COUNTER_SIZE)
    && (aad.announce.Some? ==> |aad.announce.value.raw| == KEY_SIZE)
  }

  /** Where each part of a written header stands. */
  lemma HeaderLayout(aad: Aad)
    requires Writable(aad)
    ensures var h := BuildHeader(aad);
            && h[|h| - 8..] == BigEndian(aad.counter, 8)
            && match aad.announce
               case None => |h| == 9 && h[0] == 0
               case Some(pub) => |h| == 41 && h[0] == 1 && h[1..33] == pub.raw
  {
    match aad.announce
    case Some(pub) => assert BuildHeader(aad)[1..33] == pub.raw;
    case None =>
  }

  /** What was written is what is read. */
  lemma ParseBuild(aad: Aad, body: Bytes)
    requires Writable(aad)
    ensures ParseFrame(BuildHeader(aad) + body) == Parsed(aad, body)
  {
    var c := BigEndian(aad.counter, COUNTER_SIZE);
    DecodeEncode(aad.counter, COUNTER_SIZE);
    var f := BuildHeader(aad) + body;
    match aad.announce
    case Some(pub) =>
      assert f[1..33] == pub.raw && f[33..41] == c && f[41..] == body;
    case None =>
      assert f[1..9] == c && f[9..] == body;
  }

  /** Nothing else reads the same: the bytes that the tag authenticates are exactly the parsed header. */
  lemma BuildParse(framed: Bytes)
    ensures match ParseFrame(framed)
            case Parsed(aad, body) => Writable(aad) && framed == BuildHeader(aad) + body
            case FrameTooShort => |framed| < 9
            case TooShortForKey => 9 <= |framed| < 41 && framed[0] == FLAG_REKEY
            case InvalidFlag(flag) => |framed| >= 9 && framed[0] == flag && flag > 1
  {
    if |framed| >= 9 {
      var rest := framed[1..];
      assert framed == [framed[0]] + rest;
      if framed[0] == FLAG_REKEY && |framed| >= 41 {
        EncodeDecode(framed[33..41]);
        assert framed == [FLAG_REKEY] + framed[1..33] + framed[33..41] + framed[41..];
      } else if framed[0] == FLAG_NO_REKEY {
        EncodeDecode(framed[1..9]);
        assert framed == [FLAG_NO_REKEY] + framed[1..9] + framed[9..];
      }
    }
  }
}
