/** Keys, ciphertexts and the passive attacker, symbolically: every primitive is a free constructor,
    so two terms are equal exactly when they were built the same way from the same parts. */
module SymbolicCrypto {
  import opened ByteCodec
  import opened Wrappers

  /** The 32 raw bytes of an X25519 public key. */
  datatype PubKey = PubKey(raw: Bytes)

  /** A private key, identified by the public key it belongs to. */
  datatype PrivKey = PrivKey(pub: PubKey)

  /** A Diffie-Hellman shared secret: the unordered pair of public keys it was computed from. */
  datatype Secret = DH(ends: set<PubKey>)

  function Exchange(mine: PrivKey, peer: PubKey): Secret {
    DH({mine.pub, peer})
  }

  /** The `info` strings of the handshake's three derivations. */
  datatype Label = InitiatorToResponder | ResponderToInitiator | RootKey

  datatype Key =
    | Hkdf(secret: Secret, epkInitiator: PubKey, epkResponder: PubKey, info: Label)
    | RootOf(root: Key, dh: Secret)
    | ChainOf(root: Key, dh: Secret)
    | NextOf(chain: Key)
    | MsgOf(chain: Key)

  /** The authenticated header of a frame. */
  datatype Aad = Aad(announce: Option<PubKey>, counter: nat)

  /** An AES-GCM ciphertext: either the output of one encryption call, or bytes that are not. */
  datatype Cipher =
    | Sealed(key: Key, nonce: nat, aad: Aad, payload: Bytes)
    | Garbage(bytes: Bytes)

  /** `aes_gcm_decrypt`: opens under exactly the key, nonce and header it was sealed with. */
  function Open(key: Key, nonce: nat, aad: Aad, c: Cipher): (r: Option<Bytes>)
    ensures r.Some? <==> exists m :: c == Sealed(key, nonce, aad, m)
    ensures r.Some? ==> c == Sealed(key, nonce, aad, r.value)
  {
    if c.Sealed? && c.key == key && c.nonce == nonce && c.aad == aad then
      assert c == Sealed(key, nonce, aad, c.payload);
      Some(c.payload)
    else None
  }

  // ----- what an attacker can compute

  /** Private keys and symmetric keys in the attacker's hands. Public keys are public. */
  datatype Leak = Leak(privs: set<PrivKey>, keys: set<Key>)

  predicate KnowsSecret(l: Leak, s: Secret) {
    exists p | p in l.privs :: p.pub in s.ends
  }

  /** Some derivation from the leak ends in `k`. */
  predicate Knows(l: Leak, k: Key) {
    k in l.keys ||
    match k
    case Hkdf(s, _, _, _) => KnowsSecret(l, s)
    case RootOf(r, s) => Knows(l, r) && KnowsSecret(l, s)
    case ChainOf(r, s) => Knows(l, r) && KnowsSecret(l, s)
    case NextOf(c) => Knows(l, c)
    case MsgOf(c) => Knows(l, c)
  }

  /** `s` holds everything leaked and is closed under every computation an attacker can do. */
  ghost predicate Closed(l: Leak, s: iset<Key>) {
    && (forall k | k in l.keys :: k in s)
    && (forall d, i, r, info | KnowsSecret(l, d) :: Hkdf(d, i, r, info) in s)
    && (forall k, d | k in s && KnowsSecret(l, d) :: RootOf(k, d) in s && ChainOf(k, d) in s)
    && (forall k | k in s :: NextOf(k) in s && MsgOf(k) in s)
  }

  /** `Knows` is the least closed set, so it is neither too generous nor too strict an attacker. */
  lemma {:induction false} KnowsIsLeastClosure(l: Leak, s: iset<Key>)
    ensures Closed(l, iset k | Knows(l, k))
    ensures Closed(l, s) ==> forall k | Knows(l, k) :: k in s
  {
    if Closed(l, s) {
      forall k | Knows(l, k) ensures k in s { KnownIsInClosure(l, s, k); }
    }
  }

  lemma {:induction false} KnownIsInClosure(l: Leak, s: iset<Key>, k: Key)
    requires Closed(l, s) && Knows(l, k)
    ensures k in s
  {
    if k !in l.keys {
      match k
      case Hkdf(_, _, _, _) =>
      case RootOf(r, _) => KnownIsInClosure(l, s, r);
      case ChainOf(r, _) => KnownIsInClosure(l, s, r);
      case NextOf(c) => KnownIsInClosure(l, s, c);
      case MsgOf(c) => KnownIsInClosure(l, s, c);
    }
  }

  // ----- the anatomy of a key

  /** The chain key a KDF chain was seeded with. */
  function Origin(k: Key): Key {
    match k
    case NextOf(c) => Origin(c)
    case MsgOf(c) => Origin(c)
    case _ => k
  }

  /** The shared secret of the handshake that all key material of a session descends from. */
  function HandshakeSecret(k: Key): Secret {
    match k
    case Hkdf(s, _, _, _) => s
    case RootOf(r, _) => HandshakeSecret(r)
    case ChainOf(r, _) => HandshakeSecret(r)
    case NextOf(c) => HandshakeSecret(c)
    case MsgOf(c) => HandshakeSecret(c)
  }

  /** The Diffie-Hellman secret `d` was mixed into the root key somewhere below `k`. */
  predicate Mixes(k: Key, d: Secret) {
    match k
    case Hkdf(_, _, _, _) => false
    case RootOf(r, s) => s == d || Mixes(r, d)
    case ChainOf(r, s) => s == d || Mixes(r, d)
    case NextOf(c) => Mixes(c, d)
    case MsgOf(c) => Mixes(c, d)
  }

  /** Every Diffie-Hellman end that `k` was derived from is one of `pubs`. */
  predicate Within(k: Key, pubs: set<PubKey>) {
    match k
    case Hkdf(s, _, _, _) => s.ends <= pubs
    case RootOf(r, s) => s.ends <= pubs && Within(r, pubs)
    case ChainOf(r, s) => s.ends <= pubs && Within(r, pubs)
    case NextOf(c) => Within(c, pubs)
    case MsgOf(c) => Within(c, pubs)
  }

  /** How many Diffie-Hellman steps the root key below `k` has taken. */
  function Depth(k: Key): nat {
    match k
    case Hkdf(_, _, _, _) => 0
    case RootOf(r, _) => 1 + Depth(r)
    case ChainOf(r, _) => 1 + Depth(r)
    case NextOf(c) => Depth(c)
    case MsgOf(c) => Depth(c)
  }

  lemma {:induction false} WithinMonotone(k: Key, small: set<PubKey>, large: set<PubKey>)
    requires Within(k, small) && small <= large
    ensures Within(k, large)
  {
    match k
    case Hkdf(_, _, _, _) =>
    case RootOf(r, _) => WithinMonotone(r, small, large);
    case ChainOf(r, _) => WithinMonotone(r, small, large);
    case NextOf(c) => WithinMonotone(c, small, large);
    case MsgOf(c) => WithinMonotone(c, small, large);
  }

  lemma {:induction false} UnmixedSecret(k: Key, pubs: set<PubKey>, d: Secret)
    requires Within(k, pubs) && !(d.ends <= pubs)
    ensures !Mixes(k, d)
  {
    match k
    case Hkdf(_, _, _, _) =>
    case RootOf(r, _) => UnmixedSecret(r, pubs, d);
    case ChainOf(r, _) => UnmixedSecret(r, pubs, d);
    case NextOf(c) => UnmixedSecret(c, pubs, d);
    case MsgOf(c) => UnmixedSecret(c, pubs, d);
  }

  /** A secret outside the leak is a barrier: nothing below which it was mixed in can be computed. */
  lemma {:induction false} MixedKeyIsSecret(l: Leak, k: Key, d: Secret)
    requires !KnowsSecret(l, d) && forall leaked | leaked in l.keys :: !Mixes(leaked, d)
    requires Mixes(k, d)
    ensures !Knows(l, k)
  {
    match k
    case Hkdf(_, _, _, _) =>
    case RootOf(r, s) => if s != d { MixedKeyIsSecret(l, r, d); }
    case ChainOf(r, s) => if s != d { MixedKeyIsSecret(l, r, d); }
    case NextOf(c) => MixedKeyIsSecret(l, c, d);
    case MsgOf(c) => MixedKeyIsSecret(l, c, d);
  }

  /** An attacker who was leaked no symmetric key of a session, whatever other keys he holds, needs its
      handshake secret for any of them. */
  lemma {:induction false} SessionKeyNeedsHandshakeSecret(l: Leak, k: Key)
    requires forall leaked | leaked in l.keys :: HandshakeSecret(leaked) != HandshakeSecret(k)
    requires Knows(l, k)
    ensures KnowsSecret(l, HandshakeSecret(k))
  {
    match k
    case Hkdf(_, _, _, _) =>
    case RootOf(r, _) => SessionKeyNeedsHandshakeSecret(l, r);
    case ChainOf(r, _) => SessionKeyNeedsHandshakeSecret(l, r);
    case NextOf(c) => SessionKeyNeedsHandshakeSecret(l, c);
    case MsgOf(c) => SessionKeyNeedsHandshakeSecret(l, c);
  }
}
