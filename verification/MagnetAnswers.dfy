// What a peer can answer to the requests for metadata, and what the fetch makes of it: `try_fetch` of
// crates/daemon/src/magnet_worker.rs.
module MagnetAnswers {
  import opened Prelude
  import opened Bencoding
  import opened BencodingProofs
  import opened Metainfo
  import opened MetainfoProofs
  import opened MetainfoTexts
  import opened MagnetWorker
  import Decimal
  import Wire

  // --- the texts ---

  lemma TypeKeys()
    ensures MSG_TYPE == Ascii("msg_type") && PIECE == Ascii("piece")
  {
  }

  lemma KeysAreWritten()
    ensures EncodeString(MSG_TYPE) == Ascii("8:msg_type") && EncodeString(PIECE) == Ascii("5:piece")
  {
    assert Decimal.NatText(8) == [56] && Decimal.NatText(5) == [53];
  }

  lemma TypedFields(kind: int, i: int)
    ensures Insert(Insert([], MSG_TYPE, Int(kind)), PIECE, Int(i)) == [Entry(MSG_TYPE, Int(kind)), Entry(PIECE, Int(i))]
  {
    assert Less(MSG_TYPE, PIECE);
    LessTrichotomy(MSG_TYPE, PIECE);
    var first := [Entry(MSG_TYPE, Int(kind))];
    assert Insert([], MSG_TYPE, Int(kind)) == first && first[1..] == [];
  }

  // The request for piece `i`, to the letter.
  lemma RequestText(id: byte, i: nat)
    ensures RequestFor(id, i)
            == Wire.Extended(id, DictText(IntField(Ascii("8:msg_type"), 0) + IntField(Ascii("5:piece"), i)))
  {
    hide Insert, Encode, EncodeEntry, EncodeEntries, EncodeString, IntField, DictText, Ascii;
    var a, b := Entry(MSG_TYPE, Int(0)), Entry(PIECE, Int(i));
    KeysAreWritten();
    TypedFields(0, i);
    assert [a, b] == [a] + [b];
    DictIsText([a] + [b]);
    EncodedCons(a, [b]);
    OneEntry(b);
    IntEntryIsText(MSG_TYPE, 0);
    IntEntryIsText(PIECE, i);
  }

  // --- the answers ---

  // A dictionary with msg_type 2 rejects, whatever else it holds and whatever follows.
  lemma RejectMessage(d: Map, rest: bytes)
    requires ValidMap(d) && Get(d, Ascii("msg_type")) == Some(Int(2))
    ensures Classify(Wire.Extended(1, Encode(Dict(d)) + rest)) == Reject
  {
    hide Parse, Encode, Get;
    TypeKeys();
    RoundTrip(Dict(d), rest);
  }

  // What is neither: other messages, other ids, what starts with no dictionary, and dictionaries of another type.
  lemma OthersAreSkipped(m: Wire.Message)
    ensures !m.Extended? || m.msgId != 1 ==> Classify(m) == Skip
    ensures m.Extended? && Parse(m.payload).Err? ==> Classify(m) == Skip
    ensures m.Extended? && Parse(m.payload).Ok? && !Parse(m.payload).value.0.Dict? ==> Classify(m) == Skip
    ensures m.Extended? && Parse(m.payload).Ok? && Parse(m.payload).value.0.Dict? ==>
              var t := Get(Parse(m.payload).value.0.entries, Ascii("msg_type"));
              t != Some(Int(1)) && t != Some(Int(2)) ==> Classify(m) == Skip
  {
    hide Parse, Get;
    TypeKeys();
  }

  // --- failures ---

  // Pieces 0, 1, ... arrive, whatever is in them; `skips[j]` messages are skipped before the j-th.
  predicate Arrive(msgs: seq<Wire.Message>, skips: seq<nat>) {
    skips == []
    || (SomeAnswer(msgs, skips[0]) && Arrive(msgs[skips[0] + 1..], skips[1..]))
  }

  predicate SomeAnswer(msgs: seq<Wire.Message>, k: nat) {
    k < |msgs| && k < 30 && SkippedFirst(msgs, k) && Classify(msgs[k]).Data?
  }

  predicate SkippedFirst(msgs: seq<Wire.Message>, k: nat) {
    k <= |msgs| && forall j :: 0 <= j < k ==> Classify(msgs[j]) == Skip
  }

  // What the peer sends after them.
  function Following(msgs: seq<Wire.Message>, skips: seq<nat>): seq<Wire.Message>
    requires Arrive(msgs, skips)
  {
    if skips == [] then msgs else Following(msgs[skips[0] + 1..], skips[1..])
  }

  // How a piece can fail to arrive: it is rejected, the peer is gone, or thirty messages are something else.
  predicate FailsWith(msgs: seq<Wire.Message>, piece: nat, e: FetchError) {
    match e
    case Rejected(i) => i == piece && exists k :: 0 <= k < 30 && k < |msgs| && RejectedAt(msgs, k)
    case Disconnected => |msgs| < 30 && SkippedFirst(msgs, |msgs|)
    case TimedOut(i) => i == piece && |msgs| >= 30 && SkippedFirst(msgs, 30)
    case _ => false
  }

  predicate RejectedAt(msgs: seq<Wire.Message>, k: nat)
    requires k < |msgs|
  {
    SkippedFirst(msgs, k) && Classify(msgs[k]) == Reject
  }

  lemma {:induction false} AwaitSkips(piece: nat, msgs: seq<Wire.Message>, tries: nat, k: nat)
    requires k <= tries && SkippedFirst(msgs, k)
    ensures Await(piece, msgs, tries) == Await(piece, msgs[k..], tries - k)
  {
    hide Classify;
    if k == 0 {
      assert msgs[0..] == msgs;
    } else {
      assert Classify(msgs[0]) == Skip;
      forall j | 0 <= j < k - 1 ensures Classify(msgs[1..][j]) == Skip {
        assert msgs[1..][j] == msgs[j + 1];
      }
      AwaitSkips(piece, msgs[1..], tries - 1, k - 1);
      assert msgs[1..][k - 1..] == msgs[k..];
    }
  }

  lemma AwaitFails(piece: nat, msgs: seq<Wire.Message>, e: FetchError)
    requires FailsWith(msgs, piece, e)
    ensures Await(piece, msgs, 30) == Err(e)
  {
    hide Classify;
    match e
    case Rejected(_) =>
      var k :| 0 <= k < 30 && k < |msgs| && RejectedAt(msgs, k);
      AwaitSkips(piece, msgs, 30, k);
      assert msgs[k..][0] == msgs[k];
    case Disconnected =>
      AwaitSkips(piece, msgs, 30, |msgs|);
    case TimedOut(_) =>
      AwaitSkips(piece, msgs, 30, 30);
  }

  lemma AwaitSome(piece: nat, msgs: seq<Wire.Message>, k: nat)
    requires SomeAnswer(msgs, k)
    ensures Await(piece, msgs, 30).Ok? && Await(piece, msgs, 30).value.1 == msgs[k + 1..]
  {
    hide Classify;
    AwaitSkips(piece, msgs, 30, k);
    assert msgs[k..][0] == msgs[k] && msgs[k..][1..] == msgs[k + 1..];
  }

  lemma {:induction false} FailsAfter(msgs: seq<Wire.Message>, skips: seq<nat>, i: nat, n: nat, buffer: bytes,
                                      e: FetchError)
    requires Arrive(msgs, skips) && i + |skips| < n && FailsWith(Following(msgs, skips), i + |skips|, e)
    ensures Assemble(msgs, i, n, buffer) == Err(e) && Asked(msgs, i, n) == |skips| + 1
    decreases |skips|
  {
    hide Await, Classify, Splice, FailsWith, SomeAnswer;
    if skips == [] {
      AwaitFails(i, msgs, e);
    } else {
      AwaitSome(i, msgs, skips[0]);
      var (block, rest) := Await(i, msgs, 30).value;
      FailsAfter(rest, skips[1..], i + 1, n, Splice(buffer, i * BLOCK, block), e);
    }
  }

  // If k pieces arrive and the next one does not, the fetch fails the way that piece did, whatever the pieces held, and
  // exactly the first k + 1 pieces have been requested. A peer that rejects piece k is one such way.
  lemma FetchFails(H: bytes -> Digest, msgs: seq<Wire.Message>, skips: seq<nat>, size: nat, infoHash: Digest,
                   e: FetchError)
    requires size <= 10485760 && 16384 * |skips| < size
    requires Arrive(msgs, skips) && FailsWith(Following(msgs, skips), |skips|, e)
    ensures Fetch(H, msgs, size, infoHash) == Err(e)
    ensures Asked(msgs, 0, CeilDiv(size, 16384)) == |skips| + 1
  {
    hide Assemble, Asked, Arrive, Following, FailsWith, CeilDiv, Conclude;
    CeilDivBounds(size, 16384);
    FailsAfter(msgs, skips, 0, CeilDiv(size, 16384), seq(size, _ => 0), e);
  }

  // More than 10 MiB are not asked for, and metadata with another hash is refused.
  lemma WrongSizeOrHash(H: bytes -> Digest, msgs: seq<Wire.Message>, size: nat, metadata: bytes, skips: seq<nat>,
                        infoHash: Digest)
    ensures size > 10485760 <==> Fetch(H, msgs, size, infoHash) == Err(TooLarge)
    ensures (|metadata| <= 10485760 && |skips| == CeilDiv(|metadata|, 16384) && Delivers(msgs, metadata, 0, skips)
             && H(metadata) != infoHash) ==> Fetch(H, msgs, |metadata|, infoHash) == Err(HashMismatch)
  {
    hide Assemble, Delivers, CeilDiv, Decode, FromBytes;
    if size <= 10485760 {
      NeverTooLarge(msgs, 0, CeilDiv(size, 16384), seq(size, _ => 0));
    }
    if |skips| == CeilDiv(|metadata|, 16384) && Delivers(msgs, metadata, 0, skips) {
      Reassembles(msgs, metadata, skips);
    }
  }

  lemma {:induction false} AwaitErrors(piece: nat, msgs: seq<Wire.Message>, tries: nat)
    ensures Await(piece, msgs, tries) != Err(TooLarge)
  {
    hide Classify;
    if tries > 0 && msgs != [] {
      AwaitErrors(piece, msgs[1..], tries - 1);
    }
  }

  lemma {:induction false} NeverTooLarge(msgs: seq<Wire.Message>, i: nat, n: nat, buffer: bytes)
    requires i <= n
    ensures Assemble(msgs, i, n, buffer) != Err(TooLarge)
    decreases n - i
  {
    hide Await, Splice;
    if i < n {
      AwaitErrors(i, msgs, MAX_TRIES);
      match Await(i, msgs, MAX_TRIES)
      case Ok((block, rest)) => NeverTooLarge(rest, i + 1, n, Splice(buffer, i * BLOCK, block));
      case Err(_) =>
    }
  }
}
