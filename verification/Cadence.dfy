/** When a party announces a new ratchet key: the reactive and the count trigger over any run, in terms of what
    the party has sent and accepted since the handshake. */
module Cadence {
  import opened ByteCodec
  import opened Wrappers
  import opened SymbolicCrypto
  import opened WireFormat
  import opened Channel
  import opened TwoParty
  import opened Handshake
  import opened OnTheWire

  /** Event `i` is a send of `who` that takes a ratchet step: the root key moves. */
  predicate StepsAt(cfg: Config, sys: Sys, es: seq<Event>, i: nat, who: Party) {
    && i < |es| && es[i].Send? && es[i].who == who
    && RootMoves(cfg, Mine(Run(cfg, sys, es[..i]), who).ch, es[i])
  }

  predicate RootMoves(cfg: Config, c: Chan, e: Event)
    requires e.Send?
  {
    Encrypted(cfg, c, e.text, e.timeDue, e.newPriv).0.root != c.root
  }

  /** Event `i` is the acceptance by `who` of a frame that announces a key other than the peer's current one. */
  predicate AdoptsAt(cfg: Config, sys: Sys, es: seq<Event>, i: nat, who: Party) {
    && i < |es| && es[i].Receive? && es[i].who == who
    && var c := Mine(Run(cfg, sys, es[..i]), who).ch;
       AnnouncesNewKey(c, es[i].frame) && Decrypted(cfg, c, es[i].frame).1.Success?
  }

  predicate NoStepAfter(cfg: Config, sys: Sys, es: seq<Event>, j: nat, who: Party) {
    forall i | j < i < |es| :: !StepsAt(cfg, sys, es, i, who)
  }

  /** Adoption `j` is what the party still owes a reply to. */
  predicate OwesFor(cfg: Config, sys: Sys, es: seq<Event>, j: nat, who: Party) {
    AdoptsAt(cfg, sys, es, j, who) && NoStepAfter(cfg, sys, es, j, who)
  }

  /** `who` has accepted a new key of the peer and has taken no step since. */
  predicate OwesReply(cfg: Config, sys: Sys, es: seq<Event>, who: Party) {
    exists j | 0 <= j < |es| :: OwesFor(cfg, sys, es, j, who)
  }

  /** How often `who` has called `encrypt` since its last step, that call included, or since the handshake. */
  function SendsSinceStep(cfg: Config, sys: Sys, es: seq<Event>, who: Party): nat {
    if es == [] then 0 else
    var last := |es| - 1;
    if !(es[last].Send? && es[last].who == who) then SendsSinceStep(cfg, sys, es[..last], who)
    else if StepsAt(cfg, sys, es, last, who) then 1
    else SendsSinceStep(cfg, sys, es[..last], who) + 1
  }

  /** The channel is one that a handshake has just handed over. */
  ghost predicate FromHandshake(c: Chan) {
    || (exists st, epk :: c == InitiatorChannel(st, epk))
    || (exists st :: c == ResponderChannel(st))
  }

  lemma EncryptMovesRootIfDue(cfg: Config, c: Chan, e: Event)
    requires e.Send?
    ensures RootMoves(cfg, c, e) <==> StepDue(cfg, c, e.timeDue)
    ensures var c' := Encrypted(cfg, c, e.text, e.timeDue, e.newPriv).0;
            && c'.sinceRekey == (if RootMoves(cfg, c, e) then 1 else c.sinceRekey + 1)
            && c'.send.counter == (if RootMoves(cfg, c, e) then 1 else c.send.counter + 1)
            && (c'.owed <==> c.owed && !RootMoves(cfg, c, e))
    ensures forall p | Encrypted(cfg, c, e.text, e.timeDue, e.newPriv).1 == Success(p) ::
              p.Parsed? && p.aad.announce == if RootMoves(cfg, c, e) then Some(e.newPriv.pub) else None
  {
    assert Depth(RootOf(c.root, Exchange(e.newPriv, c.peerPub))) > Depth(c.root);
  }

  lemma DecryptOwesIfAdopted(cfg: Config, c: Chan, p: Frame)
    ensures Decrypted(cfg, c, p).0.owed <==> c.owed || (AnnouncesNewKey(c, p) && Decrypted(cfg, c, p).1.Success?)
    ensures Decrypted(cfg, c, p).0.sinceRekey == c.sinceRekey
  {
    DecryptKeepsSending(cfg, c, p);
    if p.Parsed? && !AnnouncesNewKey(c, p) { assert DecryptPlain(cfg, c, p).0.owed == c.owed; }
  }

  // ----- what one more event does to the books

  lemma SameInPrefix(cfg: Config, sys: Sys, es: seq<Event>, before: seq<Event>, i: nat, who: Party)
    requires i < |before| <= |es| && before == es[..|before|]
    ensures StepsAt(cfg, sys, before, i, who) <==> StepsAt(cfg, sys, es, i, who)
    ensures AdoptsAt(cfg, sys, before, i, who) <==> AdoptsAt(cfg, sys, es, i, who)
  {
    assert before[..i] == es[..i] && before[i] == es[i];
  }

  lemma NoStepByLast(cfg: Config, sys: Sys, es: seq<Event>, before: seq<Event>, j: nat, who: Party, last: nat)
    requires |es| == last + 1 && before == es[..last] && j < last
    ensures NoStepAfter(cfg, sys, es, j, who) <==>
              NoStepAfter(cfg, sys, before, j, who) && !StepsAt(cfg, sys, es, last, who)
  {
    forall i: nat | j < i < last ensures StepsAt(cfg, sys, before, i, who) <==> StepsAt(cfg, sys, es, i, who) {
      SameInPrefix(cfg, sys, es, before, i, who);
    }
  }

  lemma OwesForByLast(cfg: Config, sys: Sys, es: seq<Event>, before: seq<Event>, j: nat, who: Party, last: nat)
    requires |es| == last + 1 && before == es[..last] && j < last
    ensures OwesFor(cfg, sys, es, j, who) <==>
              OwesFor(cfg, sys, before, j, who) && !StepsAt(cfg, sys, es, last, who)
  {
    SameInPrefix(cfg, sys, es, before, j, who);
    NoStepByLast(cfg, sys, es, before, j, who, last);
  }

  lemma OwesByLast(cfg: Config, sys: Sys, es: seq<Event>, before: seq<Event>, who: Party, last: nat)
    requires |es| == last + 1 && before == es[..last]
    ensures OwesReply(cfg, sys, es, who) <==>
            || AdoptsAt(cfg, sys, es, last, who)
            || (OwesReply(cfg, sys, before, who) && !StepsAt(cfg, sys, es, last, who))
  {
    if AdoptsAt(cfg, sys, es, last, who) {
      assert OwesFor(cfg, sys, es, last, who);
    } else if OwesReply(cfg, sys, es, who) {
      var j :| 0 <= j < |es| && OwesFor(cfg, sys, es, j, who);
      OwesForByLast(cfg, sys, es, before, j, who, last);
    } else if OwesReply(cfg, sys, before, who) {
      var j :| 0 <= j < |before| && OwesFor(cfg, sys, before, j, who);
      OwesForByLast(cfg, sys, es, before, j, who, last);
    }
  }

  /** What one more event does to what the channel remembers. */
  lemma MemoryMoves(cfg: Config, now: Sys, e: Event, who: Party, c: Chan, c': Chan)
    requires c == Mine(now, who).ch && c' == Mine(Step(cfg, now, e), who).ch
    ensures e.Send? && e.who == who ==>
              && c'.sinceRekey == (if RootMoves(cfg, c, e) then 1 else c.sinceRekey + 1)
              && c'.send.counter == (if RootMoves(cfg, c, e) then 1 else c.send.counter + 1)
              && (c'.owed <==> c.owed && !RootMoves(cfg, c, e))
    ensures e.Receive? && e.who == who ==>
              && c'.sinceRekey == c.sinceRekey && c'.sendCounter == c.sendCounter && c'.send == c.send
              && (c'.owed <==> c.owed || (AnnouncesNewKey(c, e.frame) && Decrypted(cfg, c, e.frame).1.Success?))
    ensures e.who != who ==> c' == c
  {
    if e.who == who {
      match e
      case Send(_, _, _, _) => EncryptMovesRootIfDue(cfg, c, e);
      case Receive(_, p) => DecryptOwesIfAdopted(cfg, c, p);
    }
  }

  /** What the channel remembers is what happened: whether a reply is owed, and how many messages the current
      sending chain has carried, which the chain counts for itself. */
  lemma {:induction false} ChannelRemembers(cfg: Config, sys: Sys, es: seq<Event>, who: Party, now: Chan)
    requires FromHandshake(Mine(sys, who).ch) && now == Mine(Run(cfg, sys, es), who).ch
    ensures now.owed <==> OwesReply(cfg, sys, es, who)
    ensures now.sinceRekey == now.send.counter == SendsSinceStep(cfg, sys, es, who)
    decreases |es|
  {
    if es == [] {
      assert !OwesReply(cfg, sys, es, who);
    } else {
      var last := |es| - 1;
      var before, c := es[..last], Mine(Run(cfg, sys, es[..last]), who).ch;
      ChannelRemembers(cfg, sys, before, who, c);
      OwesByLast(cfg, sys, es, before, who, last);
      MemoryMoves(cfg, Run(cfg, sys, before), es[last], who, c, now);
    }
  }

  /** Main result: over any run from a handshake, against any network, a send takes a ratchet step, and its frame
      announces the new key, if and only if the time is due, the interval's worth of sends has gone by since
      the party's last step, or it has accepted a new key of the peer since then. */
  lemma AnnouncesExactly(cfg: Config, sys: Sys, es: seq<Event>, who: Party, now: Chan, e: Event)
    requires FromHandshake(Mine(sys, who).ch) && now == Mine(Run(cfg, sys, es), who).ch
    requires e.Send? && e.who == who
    ensures RootMoves(cfg, now, e) <==>
              || e.timeDue
              || SendsSinceStep(cfg, sys, es, who) >= cfg.rekeyInterval
              || OwesReply(cfg, sys, es, who)
    ensures forall p | Encrypted(cfg, now, e.text, e.timeDue, e.newPriv).1 == Success(p) ::
              p.Parsed? && p.aad.announce == if RootMoves(cfg, now, e) then Some(e.newPriv.pub) else None
  {
    ChannelRemembers(cfg, sys, es, who, now);
    EncryptMovesRootIfDue(cfg, now, e);
  }

  lemma {:induction false} NothingSentYet(cfg: Config, sys: Sys, es: seq<Event>, who: Party)
    requires forall e | e in es :: !(e.Send? && e.who == who)
    ensures SendsSinceStep(cfg, sys, es, who) == 0
    ensures Mine(Run(cfg, sys, es), who).ch.sendCounter == Mine(sys, who).ch.sendCounter
  {
    if es != [] {
      var before := Run(cfg, sys, es[..|es| - 1]);
      NothingSentYet(cfg, sys, es[..|es| - 1], who);
      MemoryMoves(cfg, before, es[|es| - 1], who, Mine(before, who).ch, Mine(Run(cfg, sys, es), who).ch);
    }
  }

  /** So a handshake leaves nobody a step to take: the first frame that a party sends, if it has accepted no new
      key before and the time is not due, starts with the flag byte of a plain frame and carries no key. */
  lemma FirstFrameIsPlain(cfg: Config, sys: Sys, es: seq<Event>, who: Party, now: Chan, e: Event, p: Frame,
                          enc: Encode)
    requires FromHandshake(Mine(sys, who).ch) && now == Mine(Run(cfg, sys, es), who).ch
    requires forall e | e in es :: !(e.Send? && e.who == who)
    requires forall i: nat :: !AdoptsAt(cfg, sys, es, i, who)
    requires e.Send? && e.who == who && !e.timeDue && cfg.rekeyInterval >= 1
    requires Encrypted(cfg, now, e.text, e.timeDue, e.newPriv).1 == Success(p)
    ensures p.Parsed? && p.aad == Aad(None, 0) && Written(p, enc) == [0] + BigEndian(0, 8) + enc(p.body)
  {
    NothingSentYet(cfg, sys, es, who);
    AnnouncesExactly(cfg, sys, es, who, now, e);
  }
}
