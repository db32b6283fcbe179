/** The file transfers of `gui.py`: offers and chunks multiplexed with text over one channel. */
module FileTransfer {
  import opened ByteCodec
  import opened Wrappers
  import Padding
  import Transport
  import WireFormat

  const MSG_TEXT: byte := 1
  const MSG_FILE_OFFER: byte := 2
  const MSG_FILE_CHUNK: byte := 3
  const FILE_CHUNK_SIZE: nat := 0x40000
  const MAX_FILE_SIZE: nat := 0xC800000
  const MAX_CONCURRENT: nat := 4
  const ID_SIZE: nat := 16

  /** SHA-256, symbolically: digests are equal when what was hashed is. */
  datatype Digest = Sha256(content: Bytes) | OtherDigest(text: string)

  /** The JSON object of an offer, parsed. */
  datatype Offer = Offer(id: Bytes, name: string, size: int, sha: Digest)

  /** What comes of parsing an offer: a good one, one of the errors that are caught, or one that is not. A JSON
      value that is no object, or whose fields have the wrong type, raises `TypeError`; an infinite size
      raises `OverflowError`. */
  datatype OfferBody = Parsed(offer: Offer) | Malformed | Uncaught

  datatype Message =
    | Empty
    | Text(body: Bytes)
    | FileOffer(offer: OfferBody)
    | FileChunk(body: Bytes)
    | Unknown(body: Bytes)

  datatype Transfer = Transfer(name: string, size: int, sha: Digest, received: nat, content: Bytes)

  type Transfers = map<Bytes, Transfer>

  /** The six texts of `security_alert`. */
  datatype Reason =
    | MalformedOffer | OversizedOffer | InvalidSize | TooManyTransfers
    | MalformedChunk | IntegrityFailed(name: string)

  /** `CannotSave` and `CannotWrite` are the two errors of the disk. */
  datatype Notice =
    | TextReceived(body: Bytes)
    | Alert(why: Reason)
    | CannotSave
    | CannotWrite
    | OfferAccepted(name: string, size: int)
    | Progress(name: string, received: nat, total: int)
    | FileReceived(name: string, size: int, content: Bytes)

  /** What the JSON parser makes of an offer's bytes, and how an offer is written. */
  type Parser = Bytes -> OfferBody
  type Writer = Offer -> Bytes

  /** Dispatch on the first byte. */
  function Classify(plaintext: Bytes, parse: Parser): Message {
    if plaintext == [] then Empty
    else if plaintext[0] == MSG_TEXT then Text(plaintext[1..])
    else if plaintext[0] == MSG_FILE_OFFER then FileOffer(parse(plaintext[1..]))
    else if plaintext[0] == MSG_FILE_CHUNK then FileChunk(plaintext[1..])
    else Unknown(plaintext[1..])
  }

  function EncodeOffer(o: Offer, write: Writer): Bytes {
    [MSG_FILE_OFFER] + write(o)
  }

  function EncodeChunk(id: Bytes, data: Bytes): Bytes {
    [MSG_FILE_CHUNK] + id + data
  }

  /** `_handle_file_offer`; `diskOk` says whether the destination file can be opened. */
  function HandleOffer(open: Transfers, offer: OfferBody, diskOk: bool): (Transfers, seq<Notice>) {
    match offer
    case Malformed => (open, [Alert(MalformedOffer)])
    case Uncaught => (open, [])
    case Parsed(o) =>
      if o.size > MAX_FILE_SIZE then (open, [Alert(OversizedOffer)])
      else if o.size <= 0 then (open, [Alert(InvalidSize)])
      else if |open| >= MAX_CONCURRENT then (open, [Alert(TooManyTransfers)])
      else if !diskOk then (open, [CannotSave])
      else (open[o.id := Transfer(o.name, o.size, o.sha, 0, [])], [OfferAccepted(o.name, o.size)])
  }

  /** `_handle_file_chunk`; `diskOk` says whether the data can be written. */
  function HandleChunk(open: Transfers, body: Bytes, diskOk: bool): (Transfers, seq<Notice>) {
    if |body| < ID_SIZE then (open, [Alert(MalformedChunk)]) else
    var id, data := body[..ID_SIZE], body[ID_SIZE..];
    if id !in open then (open, [])
    else if !diskOk then (open - {id}, [CannotWrite])
    else
      var t := open[id];
      var t' := t.(received := t.received + |data|, content := t.content + data);
      if t'.received < t'.size then (open[id := t'], [Progress(t.name, t'.received, t.size)])
      else (open - {id},
            [Progress(t.name, t'.received, t.size),
             if Sha256(t'.content) == t.sha then FileReceived(t.name, t.size, t'.content)
             else Alert(IntegrityFailed(t.name))])
  }

  function Handle(open: Transfers, m: Message, diskOk: bool): (Transfers, seq<Notice>) {
    match m
    case Empty => (open, [])
    case Text(body) => (open, [TextReceived(body)])
    case FileOffer(offer) => HandleOffer(open, offer, diskOk)
    case FileChunk(body) => HandleChunk(open, body, diskOk)
    case Unknown(_) => (open, [])
  }

  /** Handling this message raises an error that nobody catches: the receive loop and the worker end. */
  predicate EndsWorker(m: Message) {
    m.FileOffer? && m.offer.Uncaught?
  }

  /** At most four transfers are open, and each is short of a size within the cap, with all that arrived. */
  predicate Accounted(open: Transfers) {
    && |open| <= MAX_CONCURRENT
    && forall id | id in open :: open[id].received == |open[id].content| < open[id].size <= MAX_FILE_SIZE
  }

  // ----- the worker's inbound half

  class InboundTransfers {
    var open: Transfers
    var notices: seq<Notice>

    constructor ()
      ensures Valid() && open == map[] && notices == []
    {
      open, notices := map[], [];
    }

    ghost predicate Valid()
      reads this
    {
      Accounted(open)
    }

    method HandlePlaintext(plaintext: Bytes, parse: Parser, diskOk: bool) returns (uncaught: bool)
      requires Valid()
      modifies this
      ensures Valid()
      ensures open == Handle(old(open), Classify(plaintext, parse), diskOk).0
      ensures notices == old(notices) + Handle(old(open), Classify(plaintext, parse), diskOk).1
      ensures uncaught <==> EndsWorker(Classify(plaintext, parse))
      ensures uncaught ==> open == old(open) && notices == old(notices)
    {
      HandleKeepsAccounts(open, Classify(plaintext, parse), diskOk);
      uncaught := false;
      match Classify(plaintext, parse) {
        case Empty =>
        case Text(body) => notices := notices + [TextReceived(body)];
        case FileOffer(o) => uncaught := HandleFileOffer(o, diskOk);
        case FileChunk(body) => HandleFileChunk(body, diskOk);
        case Unknown(_) =>
      }
    }

    method HandleFileOffer(offer: OfferBody, diskOk: bool) returns (uncaught: bool)
      modifies this
      ensures open == HandleOffer(old(open), offer, diskOk).0
      ensures notices == old(notices) + HandleOffer(old(open), offer, diskOk).1
      ensures uncaught <==> offer.Uncaught?
      ensures uncaught ==> open == old(open) && notices == old(notices)
    {
      if offer.Uncaught? {
        return true;
      }
      uncaught := false;
      if offer.Malformed? {
        notices := notices + [Alert(MalformedOffer)];
        return;
      }
      var o := offer.offer;
      if o.size > MAX_FILE_SIZE {
        notices := notices + [Alert(OversizedOffer)];
        return;
      }
      if o.size <= 0 {
        notices := notices + [Alert(InvalidSize)];
        return;
      }
      if |open| >= MAX_CONCURRENT {
        notices := notices + [Alert(TooManyTransfers)];
        return;
      }
      if !diskOk {
        notices := notices + [CannotSave];
        return;
      }
      open := open[o.id := Transfer(o.name, o.size, o.sha, 0, [])];
      notices := notices + [OfferAccepted(o.name, o.size)];
    }

    method HandleFileChunk(body: Bytes, diskOk: bool)
      modifies this
      ensures open == HandleChunk(old(open), body, diskOk).0
      ensures notices == old(notices) + HandleChunk(old(open), body, diskOk).1
    {
      if |body| < ID_SIZE {
        notices := notices + [Alert(MalformedChunk)];
        return;
      }
      var id, data := body[..ID_SIZE], body[ID_SIZE..];
      if id !in open {
        return;
      }
      var t := open[id];
      if !diskOk {
        open := open - {id};
        notices := notices + [CannotWrite];
        return;
      }
      t := t.(content := t.content + data);
      t := t.(received := t.received + |data|);
      notices := notices + [Progress(t.name, t.received, t.size)];
      if t.received >= t.size {
        open := open - {id};
        if Sha256(t.content) != t.sha {
          notices := notices + [Alert(IntegrityFailed(t.name))];
          return;
        }
        notices := notices + [FileReceived(t.name, t.size, t.content)];
      } else {
        open := open[id := t];
      }
    }

    method AbortInboundTransfers()
      modifies this`open
      ensures Valid() && open == map[]
    {
      open := map[];
    }
  }

  // ----- the sending half

  /** `iter(lambda: f.read(FILE_CHUNK_SIZE), b"")` */
  function Split(content: Bytes): seq<Bytes>
    decreases |content|
  {
    if content == [] then []
    else if |content| <= FILE_CHUNK_SIZE then [content]
    else [content[..FILE_CHUNK_SIZE]] + Split(content[FILE_CHUNK_SIZE..])
  }

  function Concat(chunks: seq<Bytes>): Bytes {
    if chunks == [] then [] else Concat(chunks[..|chunks| - 1]) + chunks[|chunks| - 1]
  }

  function OfferOf(id: Bytes, name: string, content: Bytes): Offer {
    Offer(id, name, |content|, Sha256(content))
  }

  /** The plaintexts of a file: its offer and then its chunks. */
  function Sent(id: Bytes, name: string, content: Bytes, write: Writer): seq<Bytes> {
    [EncodeOffer(OfferOf(id, name, content), write)] + EncodeChunks(id, Split(content))
  }

  /** The plaintexts that `_send_file` sends: the offer and then the chunks, or nothing at all if the file is empty
      or too large. */
  method SendFile(id: Bytes, name: string, content: Bytes, write: Writer) returns (sent: seq<Bytes>)
    requires |id| == ID_SIZE
    ensures 0 < |content| <= MAX_FILE_SIZE ==>
              sent == Sent(id, name, content, write)
    ensures !(0 < |content| <= MAX_FILE_SIZE) ==> sent == []
  {
    sent := [];
    if |content| > MAX_FILE_SIZE || |content| <= 0 {
      return;
    }
    sent := [EncodeOffer(OfferOf(id, name, content), write)];
    ghost var first := sent;
    var rest := content;
    while rest != []
      invariant sent + EncodeChunks(id, Split(rest)) == first + EncodeChunks(id, Split(content))
      decreases |rest|
    {
      var n := if |rest| <= FILE_CHUNK_SIZE then |rest| else FILE_CHUNK_SIZE;
      var chunk := rest[..n];
      SplitStep(rest, n);
      sent := sent + [EncodeChunk(id, chunk)];
      rest := rest[n..];
    }
  }

  lemma SplitStep(rest: Bytes, n: nat)
    requires rest != [] && n == if |rest| <= FILE_CHUNK_SIZE then |rest| else FILE_CHUNK_SIZE
    ensures Split(rest) == [rest[..n]] + Split(rest[n..])
  {
    if n == |rest| {
      assert rest[..n] == rest && rest[n..] == [];
    }
  }

  function EncodeChunks(id: Bytes, chunks: seq<Bytes>): seq<Bytes> {
    if chunks == [] then [] else [EncodeChunk(id, chunks[0])] + EncodeChunks(id, chunks[1..])
  }

  // ----- properties

  lemma UpdateKeepsSize(open: Transfers, id: Bytes, t: Transfer)
    requires id in open
    ensures |open[id := t]| == |open| && |open - {id}| == |open| - 1
  {
    assert open[id := t].Keys == open.Keys && (open - {id}).Keys == open.Keys - {id};
    assert |open.Keys| == |open| && |(open - {id}).Keys| == |open - {id}| && |open[id := t].Keys| == |open[id := t]|;
  }

  lemma InsertSize(open: Transfers, id: Bytes, t: Transfer)
    ensures |open[id := t]| == if id in open then |open| else |open| + 1
  {
    if id in open {
      UpdateKeepsSize(open, id, t);
    } else {
      assert open[id := t].Keys == open.Keys + {id};
      assert |open.Keys| == |open| && |open[id := t].Keys| == |open[id := t]|;
    }
  }

  lemma OfferKeepsAccounts(open: Transfers, offer: OfferBody, diskOk: bool)
    requires Accounted(open)
    ensures Accounted(HandleOffer(open, offer, diskOk).0)
  {
    if offer.Parsed? {
      var o := offer.offer;
      InsertSize(open, o.id, Transfer(o.name, o.size, o.sha, 0, []));
    }
  }

  lemma ChunkKeepsAccounts(open: Transfers, body: Bytes, diskOk: bool)
    requires Accounted(open)
    ensures Accounted(HandleChunk(open, body, diskOk).0)
  {
    if |body| >= ID_SIZE && body[..ID_SIZE] in open {
      var id, data := body[..ID_SIZE], body[ID_SIZE..];
      var t := open[id].(received := open[id].received + |data|, content := open[id].content + data);
      UpdateKeepsSize(open, id, t);
      assert t.received == |t.content|;
    }
  }

  /** However hostile the peer: at most four transfers are open, and none of them has reached its size. */
  lemma HandleKeepsAccounts(open: Transfers, m: Message, diskOk: bool)
    requires Accounted(open)
    ensures Accounted(Handle(open, m, diskOk).0)
  {
    match m
    case FileOffer(offer) => OfferKeepsAccounts(open, offer, diskOk);
    case FileChunk(body) => ChunkKeepsAccounts(open, body, diskOk);
    case _ =>
  }

  lemma OffersDeliverNothing(open: Transfers, m: Message, diskOk: bool)
    ensures !m.FileChunk? ==> forall n | n in Handle(open, m, diskOk).1 :: !n.FileReceived?
  {
  }

  /** And whatever is delivered fills the size and has the digest that was offered for it. */
  lemma DeliveredAsOffered(open: Transfers, m: Message, diskOk: bool, n: Notice)
    requires Accounted(open) && n in Handle(open, m, diskOk).1 && n.FileReceived?
    ensures m.FileChunk? && |m.body| >= ID_SIZE && m.body[..ID_SIZE] in open
    ensures var t := open[m.body[..ID_SIZE]];
            t.name == n.name && t.size == n.size <= |n.content| && t.sha == Sha256(n.content) && t.content <= n.content
  {
    OffersDeliverNothing(open, m, diskOk);
  }

  datatype Arrival = Arrival(m: Message, diskOk: bool)

  function After(open: Transfers, ms: seq<Arrival>): Transfers {
    if ms == [] then open else Handle(After(open, ms[..|ms| - 1]), ms[|ms| - 1].m, ms[|ms| - 1].diskOk).0
  }

  predicate IsChunkOf(m: Message, id: Bytes) {
    m.FileChunk? && |m.body| >= ID_SIZE && m.body[..ID_SIZE] == id
  }

  /** The data of the chunks that arrived for `id`, in order. */
  function ChunksOf(ms: seq<Arrival>, id: Bytes): seq<Bytes> {
    if ms == [] then []
    else if IsChunkOf(ms[|ms| - 1].m, id) then ChunksOf(ms[..|ms| - 1], id) + [ms[|ms| - 1].m.body[ID_SIZE..]]
    else ChunksOf(ms[..|ms| - 1], id)
  }

  /** Nothing in `ms` offers `id` again or ends the worker, and the disk takes every chunk of it. */
  predicate Undisturbed(ms: seq<Arrival>, id: Bytes) {
    forall a | a in ms ::
      && !EndsWorker(a.m)
      && !(a.m.FileOffer? && a.m.offer.Parsed? && a.m.offer.offer.id == id)
      && (IsChunkOf(a.m, id) ==> a.diskOk)
  }

  /** What concerns other transfers leaves this one alone. */
  lemma OthersLeaveAlone(open: Transfers, a: Arrival, id: Bytes)
    requires id in open && !IsChunkOf(a.m, id)
    requires !(a.m.FileOffer? && a.m.offer.Parsed? && a.m.offer.offer.id == id)
    ensures id in Handle(open, a.m, a.diskOk).0 && Handle(open, a.m, a.diskOk).0[id] == open[id]
  {
  }

  lemma ConcatAppend(chunks: seq<Bytes>, last: Bytes)
    ensures Concat(chunks + [last]) == Concat(chunks) + last
  {
    assert (chunks + [last])[..|chunks|] == chunks;
  }

  lemma {:induction false} ConcatGrows(chunks: seq<Bytes>, n: nat)
    requires n <= |chunks|
    ensures |Concat(chunks[..n])| <= |Concat(chunks)|
    ensures n < |chunks| && chunks[|chunks| - 1] != [] ==> |Concat(chunks[..n])| < |Concat(chunks)|
  {
    if n < |chunks| {
      ConcatGrows(chunks[..|chunks| - 1], n);
      assert chunks[..|chunks| - 1][..n] == chunks[..n];
    } else {
      assert chunks[..n] == chunks;
    }
  }

  /** While a transfer is short of its size, it holds exactly the data of its own chunks. */
  lemma {:induction false} TransferTracks(open: Transfers, ms: seq<Arrival>, id: Bytes, o: Offer)
    requires id in open && open[id] == Transfer(o.name, o.size, o.sha, 0, [])
    requires Undisturbed(ms, id) && 0 < o.size && |Concat(ChunksOf(ms, id))| < o.size
    ensures id in After(open, ms)
    ensures After(open, ms)[id] ==
            Transfer(o.name, o.size, o.sha, |Concat(ChunksOf(ms, id))|, Concat(ChunksOf(ms, id)))
  {
    if ms != [] {
      var before, a := ms[..|ms| - 1], ms[|ms| - 1];
      assert a in ms && forall b | b in before :: b in ms;
      if IsChunkOf(a.m, id) {
        ConcatAppend(ChunksOf(before, id), a.m.body[ID_SIZE..]);
        TransferTracks(open, before, id, o);
      } else {
        TransferTracks(open, before, id, o);
        OthersLeaveAlone(After(open, before), a, id);
      }
    }
  }

  lemma {:induction false} ConcatPrepend(first: Bytes, chunks: seq<Bytes>)
    ensures Concat([first] + chunks) == first + Concat(chunks)
  {
    var all := [first] + chunks;
    if chunks == [] {
      assert all[..0] == [];
    } else {
      ConcatPrepend(first, chunks[..|chunks| - 1]);
      assert all[..|all| - 1] == [first] + chunks[..|chunks| - 1];
    }
  }

  lemma {:induction false} SplitJoins(content: Bytes)
    ensures Concat(Split(content)) == content
    ensures forall c | c in Split(content) :: 0 < |c| <= 256 * 1024
    ensures forall i | 0 <= i < |Split(content)| - 1 :: |Split(content)[i]| == 256 * 1024
    decreases |content|
  {
    if |content| > FILE_CHUNK_SIZE {
      var first, rest := content[..FILE_CHUNK_SIZE], content[FILE_CHUNK_SIZE..];
      SplitJoins(rest);
      ConcatPrepend(first, Split(rest));
      assert Split(content) == [first] + Split(rest) && content == first + rest;
    } else if content != [] {
      ConcatPrepend(content, []);
    }
  }

  lemma FileStaysOpen(open: Transfers, ms: seq<Arrival>, o: Offer, last: Arrival, n: nat)
    requires 0 < o.size && |Concat(ChunksOf(ms, o.id))| < o.size
    requires o.id in open && open[o.id] == Transfer(o.name, o.size, o.sha, 0, [])
    requires Undisturbed(ms + [last], o.id) && n <= |ms|
    ensures o.id in After(open, ms[..n])
    ensures After(open, ms[..n])[o.id] ==
            Transfer(o.name, o.size, o.sha, |Concat(ChunksOf(ms[..n], o.id))|, Concat(ChunksOf(ms[..n], o.id)))
  {
    UndisturbedPrefix(ms, last, o.id, n);
    ChunksPrefix(ms, o.id, n);
    assert ChunksOf(ms, o.id)[..|ChunksOf(ms[..n], o.id)|] == ChunksOf(ms[..n], o.id);
    ConcatGrows(ChunksOf(ms, o.id), |ChunksOf(ms[..n], o.id)|);
    TransferTracks(open, ms[..n], o.id, o);
  }

  lemma LastChunkCompletes(open: Transfers, o: Offer, body: Bytes, content: Bytes, soFar: Bytes)
    requires |body| >= ID_SIZE && body[..ID_SIZE] == o.id && soFar + body[ID_SIZE..] == content
    requires o.size == |content| && o.sha == Sha256(content)
    requires o.id in open && open[o.id] == Transfer(o.name, o.size, o.sha, |soFar|, soFar)
    ensures HandleChunk(open, body, true).1 ==
            [Progress(o.name, |content|, |content|), FileReceived(o.name, |content|, content)]
    ensures o.id !in HandleChunk(open, body, true).0
  {
  }

  lemma ChunksBeforeLast(ms: seq<Arrival>, last: Arrival, id: Bytes, content: Bytes)
    requires IsChunkOf(last.m, id) && ChunksOf(ms + [last], id) == Split(content)
    ensures Concat(ChunksOf(ms, id)) + last.m.body[ID_SIZE..] == content
    ensures |Concat(ChunksOf(ms, id))| < |content|
  {
    SplitJoins(content);
    LastChunk(ms, last, id);
    ConcatAppend(ChunksOf(ms, id), last.m.body[ID_SIZE..]);
    assert last.m.body[ID_SIZE..] in Split(content);
  }

  /** Main result: an offer while fewer than four transfers are open, then any interleaving of its chunks, in
      order, with other traffic. Up to the last chunk the transfer is open and holds what has arrived; on
      the last chunk the whole file is delivered, with the sent bytes, and the transfer is closed. */
  lemma FileArrives(before: Transfers, open: Transfers, ms: seq<Arrival>, o: Offer, content: Bytes, last: Arrival,
                    n: nat)
    requires 0 < |content| <= MAX_FILE_SIZE && |o.id| == ID_SIZE && o.size == |content| && o.sha == Sha256(content)
    requires |before| < MAX_CONCURRENT && open == Handle(before, FileOffer(Parsed(o)), true).0
    requires Undisturbed(ms + [last], o.id) && IsChunkOf(last.m, o.id)
    requires ChunksOf(ms + [last], o.id) == Split(content) && n <= |ms|
    ensures o.id in After(open, ms[..n]) && After(open, ms[..n])[o.id].content == Concat(ChunksOf(ms[..n], o.id))
    ensures Handle(After(open, ms), last.m, last.diskOk).1 ==
            [Progress(o.name, |content|, |content|), FileReceived(o.name, |content|, content)]
    ensures o.id !in Handle(After(open, ms), last.m, last.diskOk).0
  {
    assert open[o.id] == Transfer(o.name, o.size, o.sha, 0, []);
    ChunksBeforeLast(ms, last, o.id, content);
    FileStaysOpen(open, ms, o, last, n);
    FileStaysOpen(open, ms, o, last, |ms|);
    assert ms[..|ms|] == ms;
    assert last in ms + [last];
    LastChunkCompletes(After(open, ms), o, last.m.body, content, Concat(ChunksOf(ms, o.id)));
  }

  lemma LastChunk(ms: seq<Arrival>, last: Arrival, id: Bytes)
    requires IsChunkOf(last.m, id)
    ensures ChunksOf(ms + [last], id) == ChunksOf(ms, id) + [last.m.body[ID_SIZE..]]
  {
    assert (ms + [last])[..|ms|] == ms;
  }

  lemma UndisturbedPrefix(ms: seq<Arrival>, last: Arrival, id: Bytes, n: nat)
    requires Undisturbed(ms + [last], id) && n <= |ms|
    ensures Undisturbed(ms[..n], id)
  {
    forall a | a in ms[..n] ensures a in ms + [last] {
      var i :| 0 <= i < n && ms[i] == a;
      assert (ms + [last])[i] == a;
    }
  }

  lemma {:induction false} ChunksPrefix(ms: seq<Arrival>, id: Bytes, n: nat)
    requires n <= |ms|
    ensures ChunksOf(ms[..n], id) <= ChunksOf(ms, id)
  {
    if n < |ms| {
      ChunksPrefix(ms[..|ms| - 1], id, n);
      assert ms[..|ms| - 1][..n] == ms[..n];
    } else {
      assert ms[..n] == ms;
    }
  }

  /** A chunk survives its encoding, and its padded, sealed and framed form fits a transport frame. */
  lemma ChunkTravels(id: Bytes, data: Bytes, parse: Parser)
    requires |id| == ID_SIZE && |data| <= FILE_CHUNK_SIZE
    ensures Classify(EncodeChunk(id, data), parse) == FileChunk(id + data)
    ensures IsChunkOf(FileChunk(id + data), id) && (id + data)[ID_SIZE..] == data
    ensures Padding.Pad(EncodeChunk(id, data)).Success?
    ensures 1 + WireFormat.KEY_SIZE + WireFormat.COUNTER_SIZE + |Padding.Pad(EncodeChunk(id, data)).value|
            + WireFormat.TAG_SIZE <= Transport.MAX_FRAME_SIZE
  {
    var p := EncodeChunk(id, data);
    assert p[1..] == id + data;
    assert (id + data)[..ID_SIZE] == id;
    Padding.PaddedLength(p, p);
  }
}
