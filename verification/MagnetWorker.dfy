// The metadata exchange of crates/daemon/src/magnet_worker.rs (BEP 9): the reassembly loop and what is made
// of the metadata. The messages the peer sends after the extended handshake are a parameter.
module MagnetWorker {
  import opened Prelude
  import opened Bencoding
  import opened BencodingProofs
  import opened Metainfo
  import opened MetainfoProofs
  import Wire

  const BLOCK: nat := 16384
  const MAX_METADATA: nat := 10 * 1024 * 1024
  const MAX_TRIES: nat := 30
  const MSG_TYPE: bytes := [109, 115, 103, 95, 116, 121, 112, 101] // "msg_type"
  const PIECE: bytes := [112, 105, 101, 99, 101] // "piece"

  datatype FetchError =
    | TooLarge
    | Disconnected
    | TimedOut(piece: nat)
    | Rejected(piece: nat)
    | HashMismatch
    | BadMetadata(e: BencodeError)
    | BadMeta(cause: MetaError)

  datatype Reply = Data(block: bytes) | Reject | Skip

  // What the loop makes of a message: only ut_metadata messages, sent under the id 1 announced to the peer,
  // are looked at.
  function Classify(m: Wire.Message): Reply {
    if !m.Extended? || m.msgId != 1 then Skip
    else
      match Parse(m.payload)
      case Ok((Dict(d), n)) =>
        if Get(d, MSG_TYPE) == Some(Int(1)) then Data(m.payload[n..])
        else if Get(d, MSG_TYPE) == Some(Int(2)) then Reject
        else Skip
      case _ => Skip
  }

  // The next data message among the first `tries`, and what follows it.
  function Await(piece: nat, msgs: seq<Wire.Message>, tries: nat): Result<(bytes, seq<Wire.Message>), FetchError> {
    if tries == 0 then Err(TimedOut(piece))
    else if msgs == [] then Err(Disconnected)
    else
      match Classify(msgs[0])
      case Data(block) => Ok((block, msgs[1..]))
      case Reject => Err(Rejected(piece))
      case Skip => Await(piece, msgs[1..], tries - 1)
  }

  // The buffer once pieces i to n have been received: each block is copied to its place, clipped at the end.
  function Assemble(msgs: seq<Wire.Message>, i: nat, n: nat, buffer: bytes): Result<bytes, FetchError>
    requires i <= n
    decreases n - i
  {
    if i == n then Ok(buffer)
    else
      var (block, rest) :- Await(i, msgs, MAX_TRIES);
      Assemble(rest, i + 1, n, Splice(buffer, i * BLOCK, block))
  }

  // The number of pieces requested: the last one requested is the first that does not arrive.
  function Asked(msgs: seq<Wire.Message>, i: nat, n: nat): (k: nat)
    requires i <= n
    ensures k <= n - i
    decreases n - i
  {
    if i == n then 0
    else
      match Await(i, msgs, MAX_TRIES)
      case Ok((_, rest)) => 1 + Asked(rest, i + 1, n)
      case Err(_) => 1
  }

  function RequestFor(id: byte, i: nat): Wire.Message {
    Wire.Extended(id, Encode(Dict(Insert(Insert([], MSG_TYPE, Int(0)), PIECE, Int(i)))))
  }

  function Requests(id: byte, n: nat): seq<Wire.Message> { seq(n, i requires 0 <= i => RequestFor(id, i)) }

  // The metainfo synthesized around an info dictionary, with an empty announce so that it parses.
  function Rewrap(info: Bencode): bytes {
    Encode(Dict(Insert(Insert([], INFO_KEY, info), ANNOUNCE, ByteString([]))))
  }

  function Conclude(H: bytes -> Digest, metadata: bytes, infoHash: Digest):
    Result<(TorrentMeta, Bencode), FetchError>
  {
    if H(metadata) != infoHash then Err(HashMismatch)
    else
      match Decode(metadata)
      case Err(e) => Err(BadMetadata(e))
      case Ok(info) =>
        match FromBytes(H, Rewrap(info))
        case Err(e) => Err(BadMeta(e))
        case Ok(m) => Ok((m, info))
  }

  function Fetch(H: bytes -> Digest, msgs: seq<Wire.Message>, size: nat, infoHash: Digest):
    Result<(TorrentMeta, Bencode), FetchError>
  {
    if size > MAX_METADATA then Err(TooLarge)
    else
      var metadata :- Assemble(msgs, 0, CeilDiv(size, BLOCK), seq(size, _ => 0));
      Conclude(H, metadata, infoHash)
  }

  // --- the program's loops ---

  // One piece: up to 30 messages are read. `at` is the position in what the peer sends.
  method AwaitPiece(piece: nat, msgs: seq<Wire.Message>, start: nat)
    returns (r: Result<bytes, FetchError>, at: nat)
    requires start <= |msgs|
    ensures start <= at <= |msgs|
    ensures match Await(piece, msgs[start..], MAX_TRIES)
            case Ok((block, rest)) => r == Ok(block) && rest == msgs[at..]
            case Err(e) => r == Err(e)
  {
    at := start;
    var tries := 0;
    while tries < MAX_TRIES
      invariant tries <= MAX_TRIES && start <= at <= |msgs|
      invariant Await(piece, msgs[start..], MAX_TRIES) == Await(piece, msgs[at..], MAX_TRIES - tries)
    {
      if at == |msgs| {
        return Err(Disconnected), at;
      }
      var msg := msgs[at];
      assert msgs[at..][1..] == msgs[at + 1..];
      at := at + 1;
      if msg.Extended? {
        if msg.msgId == 1 {
          var dict, offset := DecodeInner(msg.payload, 0);
          assert msg.payload[0..] == msg.payload;
          if dict.Ok? && dict.value.Dict? {
            var msgType := Get(dict.value.entries, MSG_TYPE);
            if msgType.Some? && msgType.value.Int? {
              if msgType.value.i == 1 {
                return Ok(msg.payload[offset..]), at;
              } else if msgType.value.i == 2 {
                return Err(Rejected(piece)), at;
              }
            }
          }
        }
      }
      tries := tries + 1;
    }
    return Err(TimedOut(piece)), at;
  }

  // Copies a block to its place. For any block the copy stays inside the buffer.
  method CopyBlock(buffer: array<byte>, i: nat, data: bytes)
    requires i * BLOCK <= buffer.Length
    modifies buffer
    ensures buffer[..] == Splice(old(buffer[..]), i * BLOCK, data)
  {
    var start := i * BLOCK;
    var end := Min(start + |data|, buffer.Length);
    ghost var before := buffer[..];
    forall k | 0 <= k < end - start {
      buffer[start + k] := data[k];
    }
    var after := Splice(before, start, data);
    forall k | 0 <= k < buffer.Length ensures buffer[..][k] == after[k] {
      if start <= k < end {
        assert buffer[start + (k - start)] == data[k - start];
      } else {
        assert buffer[k] == before[k];
      }
    }
  }

  // `id` is the peer's id for ut_metadata messages. What is sent are the requests of the pieces in order, up to the
  // first that does not arrive.
  method TryFetch(H: bytes -> Digest, id: byte, msgs: seq<Wire.Message>, size: nat, infoHash: Digest)
    returns (r: Result<(TorrentMeta, Bencode), FetchError>, sent: seq<Wire.Message>)
    ensures r == Fetch(H, msgs, size, infoHash)
    ensures sent == Requests(id, if size > MAX_METADATA then 0 else Asked(msgs, 0, CeilDiv(size, BLOCK)))
  {
    hide Await, CeilDiv, Splice, Decode, FromBytes, Encode, Insert, RequestFor;
    sent := [];
    if size > MAX_METADATA {
      return Err(TooLarge), sent;
    }
    var numPieces := CeilDiv(size, BLOCK);
    CeilDivBounds(size, BLOCK);
    var metadata := new byte[size](_ => 0);
    assert metadata[..] == seq(size, _ => 0);
    var at := 0;
    assert msgs[0..] == msgs;
    for i := 0 to numPieces
      invariant at <= |msgs|
      invariant Assemble(msgs, 0, numPieces, seq(size, _ => 0)) == Assemble(msgs[at..], i, numPieces, metadata[..])
      invariant Asked(msgs, 0, numPieces) == i + Asked(msgs[at..], i, numPieces)
      invariant sent == Requests(id, i)
    {
      var req := SendRequest(id, i);
      sent := sent + [req];
      var block;
      block, at := AwaitPiece(i, msgs, at);
      if block.Err? {
        return Err(block.error), sent;
      }
      CopyBlock(metadata, i, block.value);
    }
    if H(metadata[..]) != infoHash {
      return Err(HashMismatch), sent;
    }
    var info := DecodeBytes(metadata[..]);
    if info.Err? {
      return Err(BadMetadata(info.error)), sent;
    }
    var root := Insert([], INFO_KEY, info.value);
    root := Insert(root, ANNOUNCE, ByteString([]));
    var full := EncodeInner(Dict(root), []);
    assert [] + Encode(Dict(root)) == Encode(Dict(root));
    var m := ReadMeta(H, full);
    r := if m.Ok? then Ok((m.value, info.value)) else Err(BadMeta(m.error));
  }

  method SendRequest(id: byte, i: nat) returns (m: Wire.Message)
    ensures m == RequestFor(id, i)
  {
    hide Encode, Insert;
    var req := Insert([], MSG_TYPE, Int(0));
    req := Insert(req, PIECE, Int(i));
    var payload := EncodeInner(Dict(req), []);
    assert [] + Encode(Dict(req)) == Encode(Dict(req));
    m := Wire.Extended(id, payload);
  }

  // --- reassembly ---

  function BlockOf(metadata: bytes, i: nat): bytes
    requires i * BLOCK <= |metadata|
  {
    metadata[i * BLOCK..Min((i + 1) * BLOCK, |metadata|)]
  }

  // The peer answers for piece i after k < 30 messages that are skipped.
  predicate AnswersAfter(msgs: seq<Wire.Message>, k: nat, block: bytes) {
    && k < |msgs| && k < MAX_TRIES
    && (forall j :: 0 <= j < k ==> Classify(msgs[j]) == Skip)
    && Classify(msgs[k]) == Data(block)
  }

  // The peer delivers the pieces from i on; `skips[j]` messages are skipped before piece i + j.
  predicate Delivers(msgs: seq<Wire.Message>, metadata: bytes, i: nat, skips: seq<nat>) {
    skips == []
    || (i * BLOCK <= |metadata| && AnswersAfter(msgs, skips[0], BlockOf(metadata, i))
        && Delivers(msgs[skips[0] + 1..], metadata, i + 1, skips[1..]))
  }

  // A data message is the encoding of a dictionary with msg_type 1, then the block, whatever its bytes.
  lemma DataMessage(d: Map, block: bytes)
    requires ValidMap(d) && Get(d, MSG_TYPE) == Some(Int(1))
    ensures Classify(Wire.Extended(1, Encode(Dict(d)) + block)) == Data(block)
  {
    hide Parse, Encode;
    RoundTrip(Dict(d), block);
    assert (Encode(Dict(d)) + block)[|Encode(Dict(d))|..] == block;
  }

  lemma {:induction false} AwaitFinds(piece: nat, msgs: seq<Wire.Message>, tries: nat, k: nat, block: bytes)
    requires k < |msgs| && k < tries
    requires (forall j :: 0 <= j < k ==> Classify(msgs[j]) == Skip) && Classify(msgs[k]) == Data(block)
    ensures Await(piece, msgs, tries) == Ok((block, msgs[k + 1..]))
  {
    hide Classify;
    if k > 0 {
      assert msgs[1..][k - 1] == msgs[k];
      assert msgs[1..][k..] == msgs[k + 1..];
      assert Classify(msgs[0]) == Skip;
      forall j | 0 <= j < k - 1 ensures Classify(msgs[1..][j]) == Skip {
        assert msgs[1..][j] == msgs[j + 1];
      }
      AwaitFinds(piece, msgs[1..], tries - 1, k - 1, block);
    }
  }

  lemma AnswerIsAwaited(piece: nat, msgs: seq<Wire.Message>, k: nat, block: bytes)
    requires AnswersAfter(msgs, k, block)
    ensures k < |msgs| && Await(piece, msgs, MAX_TRIES) == Ok((block, msgs[k + 1..]))
  {
    hide Await, Classify;
    AwaitFinds(piece, msgs, MAX_TRIES, k, block);
  }

  // Copying block i after the blocks before it.
  lemma BlockExtends(metadata: bytes, buffer: bytes, i: nat)
    requires |buffer| == |metadata| && i * BLOCK < |metadata|
    requires buffer[..i * BLOCK] == metadata[..i * BLOCK]
    ensures var end := Min((i + 1) * BLOCK, |metadata|);
            Splice(buffer, i * BLOCK, BlockOf(metadata, i))[..end] == metadata[..end]
  {
    var at, end := i * BLOCK, Min((i + 1) * BLOCK, |metadata|);
    var block := BlockOf(metadata, i);
    SpliceInside(buffer, at, block, 0, end);
    assert metadata[..end] == metadata[..at] + block;
    assert buffer[end..end] == [];
  }

  lemma {:induction false} AssembleDelivered(msgs: seq<Wire.Message>, metadata: bytes, i: nat, n: nat,
                                             buffer: bytes, skips: seq<nat>)
    requires n == CeilDiv(|metadata|, BLOCK) && i + |skips| == n && |buffer| == |metadata|
    requires Delivers(msgs, metadata, i, skips)
    requires var upTo := Min(i * BLOCK, |metadata|); buffer[..upTo] == metadata[..upTo]
    ensures Assemble(msgs, i, n, buffer) == Ok(metadata)
    decreases n - i
  {
    hide Await, Splice, CeilDiv, AnswersAfter, BlockOf;
    CeilDivBounds(|metadata|, BLOCK);
    if i == n {
      assert buffer[..|metadata|] == buffer && metadata[..|metadata|] == metadata;
    } else {
      AnswerIsAwaited(i, msgs, skips[0], BlockOf(metadata, i));
      BlockExtends(metadata, buffer, i);
      AssembleDelivered(msgs[skips[0] + 1..], metadata, i + 1, n,
                        Splice(buffer, i * BLOCK, BlockOf(metadata, i)), skips[1..]);
    }
  }

  // A peer that delivers every block in turn, with any other messages in between, delivers the metadata.
  lemma Reassembles(msgs: seq<Wire.Message>, metadata: bytes, skips: seq<nat>)
    requires |skips| == CeilDiv(|metadata|, BLOCK) && Delivers(msgs, metadata, 0, skips)
    ensures Assemble(msgs, 0, CeilDiv(|metadata|, BLOCK), seq(|metadata|, _ => 0)) == Ok(metadata)
  {
    AssembleDelivered(msgs, metadata, 0, CeilDiv(|metadata|, BLOCK), seq(|metadata|, _ => 0), skips);
  }

  // --- the info hash of the rewrapped metadata ---

  lemma RewrapFields(info: Bencode)
    ensures Insert(Insert([], INFO_KEY, info), ANNOUNCE, ByteString([]))
         == Insert(Insert([], ANNOUNCE, ByteString([])), INFO_KEY, info)
         == [Entry(ANNOUNCE, ByteString([])), Entry(INFO_KEY, info)]
  {
    assert Less(ANNOUNCE, INFO_KEY);
    LessTrichotomy(ANNOUNCE, INFO_KEY);
    assert Insert([], INFO_KEY, info) == [Entry(INFO_KEY, info)];
    assert Insert([], ANNOUNCE, ByteString([])) == [Entry(ANNOUNCE, ByteString([]))];
  }

  // Whatever the metadata was, the metainfo returned is hashed over the re-encoding of what was decoded from
  // it. That re-encoding is the metadata, byte for byte, if and only if the metadata was canonical and had no
  // trailing bytes; so in that case the info hash returned is the magnet's.
  lemma InfoHashIsTheMagnets(H: bytes -> Digest, metadata: bytes, infoHash: Digest)
    requires Conclude(H, metadata, infoHash).Ok?
    ensures var (m, info) := Conclude(H, metadata, infoHash).value;
            && Parse(metadata).Ok?
            && m.infoHash == H(Encode(info))
            && (Encode(info) == metadata <==> Canonical(metadata) && Parse(metadata).value.1 == |metadata|)
            && (Canonical(metadata) && Parse(metadata).value.1 == |metadata| ==> m.infoHash == infoHash)
  {
    hide Parse, Encode, Conclude, Canonical, FindInfo, FromBytes, Rewrap;
    var (m, info) := Conclude(H, metadata, infoHash).value;
    var n := Concluded(H, metadata, infoHash);
    ReencodeExactly(metadata);
    ParsedIsValid(metadata);
    RewrappedFinds(info);
    HashedOverInfo(H, Rewrap(info));
    assert metadata[..|metadata|] == metadata;
    if Encode(info) == metadata {
      RoundTrip(info, []);
      assert Encode(info) + [] == metadata;
    }
  }

  lemma Concluded(H: bytes -> Digest, metadata: bytes, infoHash: Digest) returns (n: nat)
    requires Conclude(H, metadata, infoHash).Ok?
    ensures var (m, info) := Conclude(H, metadata, infoHash).value;
            && H(metadata) == infoHash
            && Parse(metadata) == Ok((info, n))
            && FromBytes(H, Rewrap(info)) == Ok(m)
  {
    hide Parse, FromBytes, Rewrap;
    n := Parse(metadata).value.1;
  }

  lemma HashedOverInfo(H: bytes -> Digest, b: bytes)
    requires FromBytes(H, b).Ok?
    ensures FindInfo(b).Some? && FromBytes(H, b).value.infoHash == H(FindInfo(b).value)
  {
    hide Decode, FindInfo, LoadInfo, LoadAnnounceList, Get;
  }

  lemma RewrappedFinds(info: Bencode)
    requires Valid(info)
    ensures FindInfo(Rewrap(info)) == Some(Encode(info))
  {
    hide Encode, FindInfo;
    var es := [Entry(ANNOUNCE, ByteString([])), Entry(INFO_KEY, info)];
    RewrapFields(info);
    KeysDiffer();
    assert Less(ANNOUNCE, INFO_KEY);
    assert Get(es, INFO_KEY) == Some(info) by {
      assert es[1..] == [Entry(INFO_KEY, info)];
    }
    FindInfoOfEncoded(es, []);
    assert Encode(Dict(es)) + [] == Encode(Dict(es));
  }

  // End to end: from a peer that delivers the encoding of an info dictionary the fetch returns that dictionary,
  // under the magnet's info hash.
  lemma FetchDelivers(H: bytes -> Digest, msgs: seq<Wire.Message>, info: InfoDict, skips: seq<nat>)
    requires ValidInfo(info)
    requires var metadata := Encode(InfoToBencode(info));
             |metadata| <= MAX_METADATA && |skips| == CeilDiv(|metadata|, BLOCK) && Delivers(msgs, metadata, 0, skips)
    ensures var metadata := Encode(InfoToBencode(info));
            Fetch(H, msgs, |metadata|, H(metadata))
            == Ok((TorrentMeta([], None, info, H(metadata)), InfoToBencode(info)))
  {
    hide Assemble, Decode, Encode, InfoFields, ValidInfo, Delivers, CeilDiv, FromBytes, Insert, KeptTiers;
    var v := InfoToBencode(info);
    var metadata := Encode(v);
    Reassembles(msgs, metadata, skips);
    InfoBack(info);
    DecodeEncoded(v);
    RewrapFields(v);
    var m := TorrentMeta([], None, info, H(metadata));
    MetaRoundTrip(H, m);
    assert Rewrap(v) == IntoBytes(m);
    assert KeptTiers(None) == None by { NoTiersKept(); }
  }

  // --- a peer that serves the metadata (BEP 9) ---

  // What such a peer reads in a message: the number of the piece that is requested.
  function Requested(m: Wire.Message): Option<nat> {
    if !m.Extended? then None
    else
      match Parse(m.payload)
      case Ok((Dict(d), _)) =>
        (match Get(d, PIECE)
         case Some(Int(i)) => if Get(d, MSG_TYPE) == Some(Int(0)) && 0 <= i then Some(i) else None
         case _ => None)
      case _ => None
  }

  // It answers with a dictionary and the block.
  function Served(metadata: bytes, i: nat): Wire.Message
    requires i * BLOCK <= |metadata|
  {
    Wire.Extended(1, Encode(Dict(Insert(Insert([], MSG_TYPE, Int(1)), PIECE, Int(i)))) + BlockOf(metadata, i))
  }

  predicate IsServed(metadata: bytes, i: nat, m: Wire.Message) {
    i * BLOCK <= |metadata| && m == Served(metadata, i)
  }

  lemma TypedMap(kind: int, i: nat)
    requires Decimal.IsI64(kind) && Decimal.IsI64(i)
    ensures var d := Insert(Insert([], MSG_TYPE, Int(kind)), PIECE, Int(i));
            ValidMap(d) && Get(d, MSG_TYPE) == Some(Int(kind)) && Get(d, PIECE) == Some(Int(i))
  {
    hide Insert, Get;
    var d := Insert([], MSG_TYPE, Int(kind));
    assert MSG_TYPE[0] != PIECE[0];
    InsertValid([], MSG_TYPE, Int(kind));
    InsertGets([], MSG_TYPE, Int(kind));
    InsertValid(d, PIECE, Int(i));
    InsertGets(d, PIECE, Int(i));
  }

  lemma RequestIsRead(id: byte, i: nat)
    requires Decimal.IsI64(i)
    ensures Requested(RequestFor(id, i)) == Some(i)
  {
    hide Parse, Encode, Insert, Get;
    TypedMap(0, i);
    var v := Dict(Insert(Insert([], MSG_TYPE, Int(0)), PIECE, Int(i)));
    RoundTrip(v, []);
    assert Encode(v) + [] == Encode(v);
  }

  lemma ServedIsData(metadata: bytes, i: nat, m: Wire.Message)
    requires IsServed(metadata, i, m) && Decimal.IsI64(i)
    ensures i * BLOCK <= |metadata| && Classify(m) == Data(BlockOf(metadata, i))
  {
    hide Classify, Insert, Encode, BlockOf;
    TypedMap(1, i);
    DataMessage(Insert(Insert([], MSG_TYPE, Int(1)), PIECE, Int(i)), BlockOf(metadata, i));
  }

  lemma {:induction false} ServesAll(metadata: bytes, msgs: seq<Wire.Message>, i: nat)
    requires i <= |msgs| && Decimal.IsI64(|msgs|)
    requires forall k :: 0 <= k < |msgs| ==> IsServed(metadata, k, msgs[k])
    ensures Delivers(msgs[i..], metadata, i, seq(|msgs| - i, _ => 0))
    ensures Asked(msgs[i..], i, |msgs|) == |msgs| - i
    decreases |msgs| - i
  {
    hide Classify, IsServed, BlockOf;
    if i < |msgs| {
      var rest := msgs[i..];
      ServedIsData(metadata, i, msgs[i]);
      ServesAll(metadata, msgs, i + 1);
      assert rest[0] == msgs[i] && rest[1..] == msgs[i + 1..];
      assert seq(|msgs| - i, _ => 0)[1..] == seq(|msgs| - (i + 1), _ => 0);
      assert Await(i, rest, MAX_TRIES) == Ok((BlockOf(metadata, i), rest[1..]));
    } else {
      assert seq(|msgs| - i, _ => 0) == [];
    }
  }

  // A peer that has an info dictionary and answers the requests that are sent, each with the block it asks for: all
  // pieces are requested, each once and in order, and the fetch returns the dictionary.
  lemma RequestsAreServed(H: bytes -> Digest, id: byte, info: InfoDict, msgs: seq<Wire.Message>)
    requires ValidInfo(info) && |Encode(InfoToBencode(info))| <= MAX_METADATA
    requires var metadata, sent := Encode(InfoToBencode(info)), Requests(id, |msgs|);
             && |msgs| == CeilDiv(|metadata|, BLOCK)
             && forall k :: 0 <= k < |msgs| ==>
                  Requested(sent[k]).Some? ==> IsServed(metadata, Requested(sent[k]).value, msgs[k])
    ensures var metadata := Encode(InfoToBencode(info));
            && Asked(msgs, 0, |msgs|) == |msgs|
            && Fetch(H, msgs, |metadata|, H(metadata))
            == Ok((TorrentMeta([], None, info, H(metadata)), InfoToBencode(info)))
  {
    hide Encode, ValidInfo, InfoFields, Delivers, Asked, CeilDiv, Requested, IsServed, RequestFor, Fetch;
    var metadata := Encode(InfoToBencode(info));
    CeilDivBounds(|metadata|, BLOCK);
    forall k | 0 <= k < |msgs| ensures IsServed(metadata, k, msgs[k]) {
      RequestIsRead(id, k);
      assert Requests(id, |msgs|)[k] == RequestFor(id, k);
    }
    ServesAll(metadata, msgs, 0);
    assert msgs[0..] == msgs;
    FetchDelivers(H, msgs, info, seq(|msgs|, _ => 0));
  }

  lemma NoTiersKept()
    ensures KeptTiers(None) == None
  {
  }
}
