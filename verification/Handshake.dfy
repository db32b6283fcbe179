/** `handshake.py`: the three-message authenticated key exchange and the channels it hands over. */
module Handshake {
  import opened ByteCodec
  import opened Wrappers
  import opened SymbolicCrypto
  import opened Channel

  /** A long-term Ed25519 identity key. */
  datatype IdKey = IdKey(id: nat)

  datatype Identity = Identity(name: string, key: IdKey)

  /** `sign` and `verify`: a signature names its signer and what was signed, or is not one. */
  datatype Signature = Signed(signer: IdKey, transcript: Bytes) | Forged(bytes: Bytes)

  predicate Verify(pub: IdKey, sig: Signature, transcript: Bytes) {
    sig == Signed(pub, transcript)
  }

  /** Pinned identity keys by peer name. */
  type TrustStore = map<string, IdKey>

  datatype Message1 = Message1(name: string, epk: Bytes)
  datatype Message2 = Message2(name: string, epk: Bytes, sig: Signature)
  datatype Message3 = Message3(sig: Signature)

  datatype InitiatorState = InitiatorState(ephPriv: PrivKey)
  datatype ResponderState = ResponderState(ephPriv: PrivKey, peerEpk: Bytes, peerName: string)

  /** `HandshakeError` is the first two; the third is the library's `ValueError` for a key that is not
      32 bytes, raised only once the signature has verified. */
  datatype HandshakeError = UnknownIdentity | BadSignature | NotAKey

  const EPK_SIZE: nat := 32

  /** b"secure-comms-handshake-v1|" */
  const PREFIX: Bytes :=
    [115, 101, 99, 117, 114, 101, 45, 99, 111, 109, 109, 115, 45,
     104, 97, 110, 100, 115, 104, 97, 107, 101, 45, 118, 49, 124]
  const SEPARATOR: byte := 124

  function Transcript(epkInitiator: Bytes, epkResponder: Bytes): Bytes {
    PREFIX + epkInitiator + [SEPARATOR] + epkResponder
  }

  /** What both ends sign, spelt out. */
  lemma TranscriptSpells(epkInitiator: Bytes, epkResponder: Bytes, text: string)
    requires text == "secure-comms-handshake-v1|"
    ensures var t := Transcript(epkInitiator, epkResponder);
            && |t| == |text| + |epkInitiator| + 1 + |epkResponder|
            && (forall i | 0 <= i < |text| :: t[i] == text[i] as int)
            && t[|text|..|text| + |epkInitiator|] == epkInitiator
            && t[|text| + |epkInitiator|] == '|' as int
            && t[|text| + |epkInitiator| + 1..] == epkResponder
  {
    var t := Transcript(epkInitiator, epkResponder);
    assert t[|text|..|text| + |epkInitiator|] == epkInitiator;
    assert t[|text| + |epkInitiator| + 1..] == epkResponder;
  }

  /** The transcript is not injective in byte strings of any length, but it is once either half of both
      sides is known to have the same length. */
  lemma TranscriptBinds(a: Bytes, b: Bytes, c: Bytes, d: Bytes)
    requires Transcript(a, b) == Transcript(c, d) && (|a| == |c| || |b| == |d|)
    ensures a == c && b == d
  {
    var t, u := Transcript(a, b), Transcript(c, d);
    assert |t| == |PREFIX| + |a| + 1 + |b| && |u| == |PREFIX| + |c| + 1 + |d|;
    assert t[|PREFIX|..|PREFIX| + |a|] == a && u[|PREFIX|..|PREFIX| + |c|] == c;
    assert t[|PREFIX| + |a| + 1..] == b && u[|PREFIX| + |c| + 1..] == d;
  }

  function DeriveChannel(secret: Secret, epkInitiator: Bytes, epkResponder: Bytes, isInitiator: bool,
                         myPriv: PrivKey, peerEpk: Bytes): Chan
  {
    var i2r := Hkdf(secret, PubKey(epkInitiator), PubKey(epkResponder), InitiatorToResponder);
    var r2i := Hkdf(secret, PubKey(epkInitiator), PubKey(epkResponder), ResponderToInitiator);
    var root := Hkdf(secret, PubKey(epkInitiator), PubKey(epkResponder), RootKey);
    NewChannel(if isInitiator then i2r else r2i, if isInitiator then r2i else i2r, root, myPriv, PubKey(peerEpk))
  }

  // ----- the four steps

  function InitiatorStart(me: Identity, eph: PrivKey): (Message1, InitiatorState) {
    (Message1(me.name, eph.pub.raw), InitiatorState(eph))
  }

  function ResponderRespond(me: Identity, msg1: Message1, eph: PrivKey): (Message2, ResponderState) {
    (Message2(me.name, eph.pub.raw, Signed(me.key, Transcript(msg1.epk, eph.pub.raw))),
     ResponderState(eph, msg1.epk, msg1.name))
  }

  function InitiatorChannel(st: InitiatorState, peerEpk: Bytes): Chan {
    DeriveChannel(Exchange(st.ephPriv, PubKey(peerEpk)), st.ephPriv.pub.raw, peerEpk, true, st.ephPriv, peerEpk)
  }

  function ResponderChannel(st: ResponderState): Chan {
    DeriveChannel(Exchange(st.ephPriv, PubKey(st.peerEpk)), st.peerEpk, st.ephPriv.pub.raw, false,
                  st.ephPriv, st.peerEpk)
  }

  function InitiatorFinish(me: Identity, trust: TrustStore, st: InitiatorState, msg2: Message2)
    : Result<(Message3, Chan), HandshakeError>
  {
    if msg2.name !in trust then Failure(UnknownIdentity) else
    var transcript := Transcript(st.ephPriv.pub.raw, msg2.epk);
    if !Verify(trust[msg2.name], msg2.sig, transcript) then Failure(BadSignature)
    else if |msg2.epk| != EPK_SIZE then Failure(NotAKey)
    else Success((Message3(Signed(me.key, transcript)), InitiatorChannel(st, msg2.epk)))
  }

  function ResponderFinish(trust: TrustStore, st: ResponderState, msg3: Message3): Result<Chan, HandshakeError> {
    if st.peerName !in trust then Failure(UnknownIdentity)
    else if !Verify(trust[st.peerName], msg3.sig, Transcript(st.peerEpk, st.ephPriv.pub.raw)) then Failure(BadSignature)
    else if |st.peerEpk| != EPK_SIZE then Failure(NotAKey)
    else Success(ResponderChannel(st))
  }
}
