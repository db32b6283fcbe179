/** What becomes of the plaintexts that arrive, over any list of them: which texts are shown, what is said about
    each offer and each chunk, and that a file that was sent is delivered. */
module FileDelivery {
  import opened ByteCodec
  import opened FileTransfer

  // ----- plaintexts and what is said about them

  /** Plaintext `i` arrives as message `i`. */
  predicate ArriveAs(ps: seq<Bytes>, ms: seq<Arrival>, parse: Parser) {
    |ps| == |ms| && forall i | 0 <= i < |ps| :: ms[i].m == Classify(ps[i], parse)
  }

  /** All notices, in order. */
  function Notices(open: Transfers, ms: seq<Arrival>): seq<Notice> {
    if ms == [] then []
    else Notices(open, ms[..|ms| - 1]) + Handle(After(open, ms[..|ms| - 1]), ms[|ms| - 1].m, ms[|ms| - 1].diskOk).1
  }

  /** What is handled before the worker ends. */
  function Handled(ms: seq<Arrival>): seq<Arrival> {
    if ms == [] then [] else
    var before := Handled(ms[..|ms| - 1]);
    if |before| < |ms| - 1 || EndsWorker(ms[|ms| - 1].m) then before else ms
  }

  // ----- texts

  /** The plaintext is a text. */
  predicate IsText(p: Bytes) {
    p != [] && p[0] == 1
  }

  /** The texts among the plaintexts, in order, each without its first byte. */
  function TextsIn(ps: seq<Bytes>): seq<Bytes> {
    if ps == [] then []
    else if IsText(ps[|ps| - 1]) then TextsIn(ps[..|ps| - 1]) + [ps[|ps| - 1][1..]]
    else TextsIn(ps[..|ps| - 1])
  }

  /** The texts that are shown, in order. */
  function Shown(ns: seq<Notice>): seq<Bytes> {
    if ns == [] then []
    else if ns[|ns| - 1].TextReceived? then Shown(ns[..|ns| - 1]) + [ns[|ns| - 1].body]
    else Shown(ns[..|ns| - 1])
  }

  lemma {:induction false} ShownAppend(a: seq<Notice>, b: seq<Notice>)
    ensures Shown(a + b) == Shown(a) + Shown(b)
  {
    if b == [] {
      assert a + b == a;
    } else {
      ShownAppend(a, b[..|b| - 1]);
      assert (a + b)[..|a + b| - 1] == a + b[..|b| - 1];
    }
  }

  lemma {:induction false} NoneShown(ns: seq<Notice>)
    requires forall n | n in ns :: !n.TextReceived?
    ensures Shown(ns) == []
  {
    if ns != [] { NoneShown(ns[..|ns| - 1]); }
  }

  lemma OnlyTextsShow(open: Transfers, m: Message, diskOk: bool)
    requires !m.Text?
    ensures forall n | n in Handle(open, m, diskOk).1 :: !n.TextReceived?
  {
  }

  /** One plaintext shows itself if it is a text, and then moves no transfer, and shows nothing otherwise. */
  lemma OnePlaintextShows(open: Transfers, p: Bytes, parse: Parser, diskOk: bool)
    ensures Shown(Handle(open, Classify(p, parse), diskOk).1) == if IsText(p) then [p[1..]] else []
    ensures IsText(p) ==> Handle(open, Classify(p, parse), diskOk) == (open, [TextReceived(p[1..])])
  {
    if IsText(p) {
      assert [TextReceived(p[1..])][..0] == [];
    } else {
      OnlyTextsShow(open, Classify(p, parse), diskOk);
      NoneShown(Handle(open, Classify(p, parse), diskOk).1);
    }
  }

  /** Main result on texts: whatever else arrives among them, the texts that are shown are exactly those that
      arrived, in order. */
  lemma {:induction false} TextsAreShown(open: Transfers, ps: seq<Bytes>, ms: seq<Arrival>, parse: Parser)
    requires ArriveAs(ps, ms, parse)
    ensures Shown(Notices(open, ms)) == TextsIn(ps)
  {
    if ms != [] {
      var last := |ms| - 1;
      TextsAreShown(open, ps[..last], ms[..last], parse);
      OnePlaintextShows(After(open, ms[..last]), ps[last], parse, ms[last].diskOk);
      ShownAppend(Notices(open, ms[..last]), Handle(After(open, ms[..last]), ms[last].m, ms[last].diskOk).1);
    }
  }

  /** The worker ends at the first message whose error nobody catches, and at no other. */
  lemma {:induction false} HandledUntilEnd(ms: seq<Arrival>)
    ensures |Handled(ms)| <= |ms| && Handled(ms) == ms[..|Handled(ms)|]
    ensures forall a | a in Handled(ms) :: !EndsWorker(a.m)
    ensures |Handled(ms)| < |ms| ==> EndsWorker(ms[|Handled(ms)|].m)
  {
    if ms != [] {
      HandledUntilEnd(ms[..|ms| - 1]);
      assert ms[..|ms| - 1][..|Handled(ms[..|ms| - 1])|] == ms[..|Handled(ms[..|ms| - 1])|];
    }
  }

  /** So the worker shows exactly the texts that arrived before it ended, if it ended. */
  lemma TextsAreShownUntilEnd(open: Transfers, ps: seq<Bytes>, ms: seq<Arrival>, parse: Parser)
    requires ArriveAs(ps, ms, parse)
    ensures |Handled(ms)| <= |ps| && Shown(Notices(open, Handled(ms))) == TextsIn(ps[..|Handled(ms)|])
    ensures |Handled(ms)| == |ps| <==> forall a | a in ms :: !EndsWorker(a.m)
  {
    HandledUntilEnd(ms);
    var n := |Handled(ms)|;
    TextsAreShown(open, ps[..n], ms[..n], parse);
    if n < |ms| { assert ms[n] in ms; }
  }

  // ----- texts and transfers do not touch each other

  function WithoutTexts(ms: seq<Arrival>): seq<Arrival> {
    if ms == [] then []
    else if ms[|ms| - 1].m.Text? then WithoutTexts(ms[..|ms| - 1])
    else WithoutTexts(ms[..|ms| - 1]) + [ms[|ms| - 1]]
  }

  function NotShown(ns: seq<Notice>): seq<Notice> {
    if ns == [] then []
    else if ns[|ns| - 1].TextReceived? then NotShown(ns[..|ns| - 1])
    else NotShown(ns[..|ns| - 1]) + [ns[|ns| - 1]]
  }

  lemma NotShownText(ns: seq<Notice>, body: Bytes)
    ensures NotShown(ns + [TextReceived(body)]) == NotShown(ns)
  {
    assert (ns + [TextReceived(body)])[..|ns|] == ns;
  }

  lemma {:induction false} NotShownOthers(a: seq<Notice>, b: seq<Notice>)
    requires forall n | n in b :: !n.TextReceived?
    ensures NotShown(a + b) == NotShown(a) + b
  {
    if b == [] {
      assert a + b == a;
    } else {
      NotShownOthers(a, b[..|b| - 1]);
      assert (a + b)[..|a + b| - 1] == a + b[..|b| - 1];
      assert b == b[..|b| - 1] + [b[|b| - 1]];
    }
  }

  lemma OneMore(open: Transfers, ms: seq<Arrival>, a: Arrival)
    ensures After(open, ms + [a]) == Handle(After(open, ms), a.m, a.diskOk).0
    ensures Notices(open, ms + [a]) == Notices(open, ms) + Handle(After(open, ms), a.m, a.diskOk).1
  {
    assert (ms + [a])[..|ms|] == ms;
  }

  /** Strike the texts from what arrives: the same transfers are open at the end, with the same contents, and the
      same is said about them. */
  lemma {:induction false} TextsDisturbNothing(open: Transfers, ms: seq<Arrival>)
    ensures After(open, ms) == After(open, WithoutTexts(ms))
    ensures NotShown(Notices(open, ms)) == Notices(open, WithoutTexts(ms))
  {
    if ms != [] {
      var before, a := ms[..|ms| - 1], ms[|ms| - 1];
      TextsDisturbNothing(open, before);
      if a.m.Text? {
        NotShownText(Notices(open, before), a.m.body);
      } else {
        OneMore(open, WithoutTexts(before), a);
        OnlyTextsShow(After(open, before), a.m, a.diskOk);
        NotShownOthers(Notices(open, before), Handle(After(open, before), a.m, a.diskOk).1);
      }
    }
  }

  // ----- what is said about offers and chunks

  /** The offer asks for a transfer that may be opened. */
  predicate Admissible(open: Transfers, offer: OfferBody) {
    offer.Parsed? && 0 < offer.offer.size <= 200 * 1024 * 1024 && |open| < 4
  }

  /** Why an offer that may not be opened, or cannot be read, is refused. */
  predicate RefusedFor(open: Transfers, offer: OfferBody, why: Reason) {
    match why
    case MalformedOffer => offer.Malformed?
    case OversizedOffer => offer.Parsed? && offer.offer.size > 200 * 1024 * 1024
    case InvalidSize => offer.Parsed? && offer.offer.size <= 0
    case TooManyTransfers => offer.Parsed? && 0 < offer.offer.size <= 200 * 1024 * 1024 && |open| >= 4
    case MalformedChunk => false
    case IntegrityFailed(_) => false
  }

  /** Every offer but one that ends the worker is answered by one notice, and which one it is says why: it is
      accepted, and a transfer that has nothing yet is open under its id, or nothing changes. */
  lemma OfferIsAnswered(open: Transfers, offer: OfferBody, diskOk: bool, why: Reason)
    ensures var (open', ns) := Handle(open, FileOffer(offer), diskOk);
            && (ns == [] <==> offer.Uncaught?)
            && (ns == [Alert(why)] <==> RefusedFor(open, offer, why))
            && (ns == [CannotSave] <==> Admissible(open, offer) && !diskOk)
            && (Admissible(open, offer) && diskOk ==>
                  var o := offer.offer;
                  && ns == [OfferAccepted(o.name, o.size)]
                  && open' == open[o.id := Transfer(o.name, o.size, o.sha, 0, [])])
            && (!(Admissible(open, offer) && diskOk) ==> open' == open)
  {
  }

  /** A chunk of an open transfer, with everything that has arrived for it: it is closed if and only if the disk
      fails or the size is reached, and what is said is said of the whole content. */
  lemma ChunkIsAnswered(open: Transfers, body: Bytes, diskOk: bool, id: Bytes, all: Bytes)
    requires Accounted(open) && |body| >= ID_SIZE && id == body[..ID_SIZE] && id in open
    requires all == open[id].content + body[ID_SIZE..]
    ensures var (open', ns) := Handle(open, FileChunk(body), diskOk);
            && (id !in open' <==> !diskOk || |all| >= open[id].size)
            && (id in open' ==> open' == open[id := open[id].(received := |all|, content := all)])
            && (id !in open' ==> open' == open - {id})
            && (CannotWrite in ns <==> !diskOk)
            && (Progress(open[id].name, |all|, open[id].size) in ns <==> diskOk)
            && (FileReceived(open[id].name, open[id].size, all) in ns <==>
                  diskOk && |all| >= open[id].size && Sha256(all) == open[id].sha)
            && (Alert(IntegrityFailed(open[id].name)) in ns <==>
                  diskOk && |all| >= open[id].size && Sha256(all) != open[id].sha)
            && |ns| == if id in open' || !diskOk then 1 else 2
  {
  }

  /** A message that says nothing and does nothing: exactly an empty one, one of unknown type, a chunk that belongs
      to no open transfer, or the offer that ends the worker. */
  lemma QuietExactly(open: Transfers, m: Message, diskOk: bool)
    ensures Handle(open, m, diskOk).1 == [] <==>
              || m.Empty? || m.Unknown? || EndsWorker(m)
              || (m.FileChunk? && |m.body| >= ID_SIZE && m.body[..ID_SIZE] !in open)
    ensures Handle(open, m, diskOk).1 == [] ==> Handle(open, m, diskOk).0 == open
    ensures m.FileChunk? && |m.body| < ID_SIZE <==> Handle(open, m, diskOk).1 == [Alert(MalformedChunk)]
  {
  }

  // ----- every accepted offer is accounted for

  predicate Closes(n: Notice) {
    n.FileReceived? || n.CannotWrite? || (n.Alert? && n.why.IntegrityFailed?)
  }

  function CountAccepted(ns: seq<Notice>): nat {
    if ns == [] then 0
    else CountAccepted(ns[..|ns| - 1]) + if ns[|ns| - 1].OfferAccepted? then 1 else 0
  }

  function CountClosed(ns: seq<Notice>): nat {
    if ns == [] then 0
    else CountClosed(ns[..|ns| - 1]) + if Closes(ns[|ns| - 1]) then 1 else 0
  }

  /** The arrival is an accepted offer whose id names a transfer that is open, which it replaces. */
  predicate Replaces(open: Transfers, a: Arrival) {
    a.m.FileOffer? && Admissible(open, a.m.offer) && a.diskOk && a.m.offer.offer.id in open
  }

  function CountReplaced(open: Transfers, ms: seq<Arrival>): nat {
    if ms == [] then 0 else
    var before, a := After(open, ms[..|ms| - 1]), ms[|ms| - 1];
    CountReplaced(open, ms[..|ms| - 1]) + if Replaces(before, a) then 1 else 0
  }

  lemma {:induction false} CountsAppend(a: seq<Notice>, b: seq<Notice>)
    ensures CountAccepted(a + b) == CountAccepted(a) + CountAccepted(b)
    ensures CountClosed(a + b) == CountClosed(a) + CountClosed(b)
  {
    if b == [] {
      assert a + b == a;
    } else {
      CountsAppend(a, b[..|b| - 1]);
      assert (a + b)[..|a + b| - 1] == a + b[..|b| - 1];
    }
  }

  lemma CountsOne(n: Notice)
    ensures CountAccepted([n]) == if n.OfferAccepted? then 1 else 0
    ensures CountClosed([n]) == if Closes(n) then 1 else 0
  {
    assert [n][..0] == [];
  }

  lemma CountsTwo(m: Notice, n: Notice)
    ensures CountAccepted([m, n]) == CountAccepted([m]) + CountAccepted([n])
    ensures CountClosed([m, n]) == CountClosed([m]) + CountClosed([n])
  {
    CountsAppend([m], [n]);
    assert [m, n] == [m] + [n];
  }

  lemma OfferBalances(open: Transfers, offer: OfferBody, diskOk: bool, open': Transfers, ns: seq<Notice>)
    requires (open', ns) == HandleOffer(open, offer, diskOk)
    ensures CountClosed(ns) == 0
    ensures |open'| + (if Replaces(open, Arrival(FileOffer(offer), diskOk)) then 1 else 0) == |open| + CountAccepted(ns)
  {
    if ns != [] { CountsOne(ns[0]); }
    if offer.Parsed? {
      var o := offer.offer;
      InsertSize(open, o.id, Transfer(o.name, o.size, o.sha, 0, []));
    }
  }

  lemma ChunkCounts(open: Transfers, body: Bytes, diskOk: bool, ns: seq<Notice>)
    requires ns == HandleChunk(open, body, diskOk).1
    ensures CountAccepted(ns) == 0
    ensures CountClosed(ns) == if ns != [] && Closes(ns[|ns| - 1]) then 1 else 0
  {
    if |ns| == 1 {
      CountsOne(ns[0]);
    } else if |ns| == 2 {
      CountsOne(ns[0]);
      CountsOne(ns[1]);
      CountsTwo(ns[0], ns[1]);
    }
  }

  lemma ChunkBalances(open: Transfers, body: Bytes, diskOk: bool, open': Transfers, ns: seq<Notice>)
    requires (open', ns) == HandleChunk(open, body, diskOk)
    ensures CountAccepted(ns) == 0 && |open'| + CountClosed(ns) == |open|
  {
    ChunkCounts(open, body, diskOk, ns);
    if |body| >= ID_SIZE && body[..ID_SIZE] in open {
      var id, data := body[..ID_SIZE], body[ID_SIZE..];
      UpdateKeepsSize(open, id, open[id].(received := open[id].received + |data|, content := open[id].content + data));
    }
  }

  /** One message keeps the balance. */
  lemma MessageBalances(open: Transfers, a: Arrival, open': Transfers, ns: seq<Notice>)
    requires (open', ns) == Handle(open, a.m, a.diskOk)
    ensures |open'| + CountClosed(ns) + (if Replaces(open, a) then 1 else 0) == |open| + CountAccepted(ns)
  {
    match a.m
    case FileOffer(offer) => OfferBalances(open, offer, a.diskOk, open', ns);
    case FileChunk(body) => ChunkBalances(open, body, a.diskOk, open', ns);
    case Text(body) => CountsOne(TextReceived(body));
    case _ =>
  }

  /** Main result on transfers, for arbitrary input: every accepted offer is still open, was replaced under its own
      id, or was closed with a notice that says how; nothing is lost and nothing is closed twice. */
  lemma {:induction false} OffersAreAccountedFor(open: Transfers, ms: seq<Arrival>)
    ensures |After(open, ms)| + CountClosed(Notices(open, ms)) + CountReplaced(open, ms) ==
            |open| + CountAccepted(Notices(open, ms))
  {
    if ms != [] {
      var before, a := ms[..|ms| - 1], ms[|ms| - 1];
      OffersAreAccountedFor(open, before);
      var said := Handle(After(open, before), a.m, a.diskOk).1;
      MessageBalances(After(open, before), a, After(open, ms), said);
      CountsAppend(Notices(open, before), said);
    }
  }

  // ----- a file that was sent

  /** A plaintext that is a chunk message of `id`. */
  predicate IsChunkMessage(p: Bytes, id: Bytes) {
    |p| >= 17 && p[0] == 3 && p[1..17] == id
  }

  /** The chunk messages of `id` among the plaintexts that arrive, in order. */
  function ChunkMessages(ps: seq<Bytes>, id: Bytes): seq<Bytes> {
    if ps == [] then []
    else if IsChunkMessage(ps[|ps| - 1], id) then ChunkMessages(ps[..|ps| - 1], id) + [ps[|ps| - 1]]
    else ChunkMessages(ps[..|ps| - 1], id)
  }

  lemma ChunkMessageIsChunk(p: Bytes, id: Bytes, parse: Parser)
    requires |id| == ID_SIZE
    ensures IsChunkMessage(p, id) <==> IsChunkOf(Classify(p, parse), id)
    ensures IsChunkMessage(p, id) ==> p == EncodeChunk(id, Classify(p, parse).body[ID_SIZE..])
  {
    if |p| >= 1 + ID_SIZE {
      assert p[1..][..ID_SIZE] == p[1..1 + ID_SIZE];
      assert p == [p[0]] + p[1..] && p[1..] == p[1..][..ID_SIZE] + p[1..][ID_SIZE..];
    }
  }

  lemma {:induction false} DataOfMessages(ps: seq<Bytes>, ms: seq<Arrival>, id: Bytes, parse: Parser)
    requires ArriveAs(ps, ms, parse) && |id| == ID_SIZE
    ensures |ChunksOf(ms, id)| == |ChunkMessages(ps, id)|
    ensures forall i | 0 <= i < |ChunkMessages(ps, id)| ::
              ChunkMessages(ps, id)[i] == EncodeChunk(id, ChunksOf(ms, id)[i])
  {
    if ps != [] {
      DataOfMessages(ps[..|ps| - 1], ms[..|ps| - 1], id, parse);
      ChunkMessageIsChunk(ps[|ps| - 1], id, parse);
    }
  }

  lemma EncodeChunkInjective(id: Bytes, a: Bytes, b: Bytes)
    requires EncodeChunk(id, a) == EncodeChunk(id, b)
    ensures a == b
  {
    assert EncodeChunk(id, a)[1 + |id|..] == a && EncodeChunk(id, b)[1 + |id|..] == b;
  }

  /** What `_send_file` sends is what `FileArrives` asks for, however it is interleaved: if the chunk messages
      of `id` among all that arrives are those that were sent, its chunks are the file's, in order. */
  lemma SentChunksArrive(id: Bytes, chunks: seq<Bytes>, ps: seq<Bytes>, ms: seq<Arrival>, parse: Parser)
    requires |id| == ID_SIZE && ArriveAs(ps, ms, parse) && ChunkMessages(ps, id) == EncodeChunks(id, chunks)
    ensures ChunksOf(ms, id) == chunks
  {
    EncodeChunksAt(id, chunks);
    DataOfMessages(ps, ms, id, parse);
    forall i | 0 <= i < |chunks| ensures ChunksOf(ms, id)[i] == chunks[i] {
      EncodeChunkInjective(id, ChunksOf(ms, id)[i], chunks[i]);
    }
  }

  lemma {:induction false} EncodeChunksAt(id: Bytes, chunks: seq<Bytes>)
    ensures |EncodeChunks(id, chunks)| == |chunks|
    ensures forall i | 0 <= i < |chunks| :: EncodeChunks(id, chunks)[i] == EncodeChunk(id, chunks[i])
  {
    if chunks != [] { EncodeChunksAt(id, chunks[1..]); }
  }

  lemma {:induction false} AfterSplits(open: Transfers, ms: seq<Arrival>, more: seq<Arrival>)
    ensures After(open, ms + more) == After(After(open, ms), more)
  {
    if more == [] {
      assert ms + more == ms;
    } else {
      AfterSplits(open, ms, more[..|more| - 1]);
      assert (ms + more)[..|ms + more| - 1] == ms + more[..|more| - 1];
    }
  }

  /** The offer's plaintext is parsed as the offer that was sent, and accepted. */
  lemma SentOfferIsAccepted(before: Transfers, o: Offer, write: Writer, parse: Parser, a: Arrival)
    requires 0 < o.size <= MAX_FILE_SIZE && |before| < MAX_CONCURRENT && a.diskOk
    requires parse(write(o)) == Parsed(o) && a.m == Classify(EncodeOffer(o, write), parse)
    ensures EncodeOffer(o, write)[0] == 2 && a.m == FileOffer(Parsed(o))
    ensures Handle(before, a.m, a.diskOk) ==
            (before[o.id := Transfer(o.name, o.size, o.sha, 0, [])], [OfferAccepted(o.name, o.size)])
    ensures After(before, [a]) == Handle(before, a.m, a.diskOk).0
  {
    assert EncodeOffer(o, write)[1..] == write(o);
    assert [a][..0] == [];
  }

  /** Main result, end to end: the plaintexts that `SendFile` returns, the chunks arriving among any texts, offers
      and chunks of other files. The offer is accepted, the last chunk delivers the file, and every text that
      arrived in between is shown. */
  lemma SentFileArrives(before: Transfers, ps: seq<Bytes>, all: seq<Arrival>, first: Arrival, ms: seq<Arrival>,
                        last: Arrival, id: Bytes, name: string, content: Bytes, write: Writer, parse: Parser)
    requires 0 < |content| <= MAX_FILE_SIZE && |id| == ID_SIZE && |before| < MAX_CONCURRENT
    requires parse(write(OfferOf(id, name, content))) == Parsed(OfferOf(id, name, content))
    requires all == [first] + ms + [last] && ArriveAs(ps, all, parse)
    requires ps[0] == Sent(id, name, content, write)[0]
    requires ChunkMessages(ps[1..], id) == Sent(id, name, content, write)[1..]
    requires first.diskOk && Undisturbed(ms + [last], id) && IsChunkOf(last.m, id)
    ensures Handle(before, first.m, first.diskOk).1 == [OfferAccepted(name, |content|)]
    ensures Handle(After(before, [first] + ms), last.m, last.diskOk).1 ==
            [Progress(name, |content|, |content|), FileReceived(name, |content|, content)]
    ensures id !in After(before, all)
    ensures Shown(Notices(before, all)) == TextsIn(ps)
  {
    var o, open := OfferOf(id, name, content), After(before, [first]);
    assert first == all[0] && all[1..] == ms + [last];
    SentOfferIsAccepted(before, o, write, parse, first);
    SentChunksArrive(id, Split(content), ps[1..], ms + [last], parse);
    FileArrives(before, open, ms, o, content, last, |ms|);
    AfterSplits(before, [first], ms);
    OneMore(before, [first] + ms, last);
    TextsAreShown(before, ps, all, parse);
  }
}
