// What each event of the network does, in the messages and fields it touches, and that every connection delivers in
// order.
module Connections {
  import opened Prelude
  import opened Geometry
  import opened Swarm
  import opened SwarmProofs
  import opened Network

  // --- what is sent ---

  // The end may have received something, and nothing else.
  predicate Received(net: Net, net': Net, f: nat) {
    && f < |net.ends| <= |net'.ends|
    && net'.ends[f] == net.ends[f].(inbox := net'.ends[f].inbox)
    && net.ends[f].inbox <= net'.ends[f].inbox
  }

  function Arrived(net: Net, net': Net, f: nat): seq<Message>
    requires Received(net, net', f)
  {
    net'.ends[f].inbox[|net.ends[f].inbox|..]
  }

  // The rest of the guard's piece is requested, 16 KiB at most; nothing for a complete guard.
  predicate RequestsRest(g: Geometry, guard: Guard, sent: seq<Message>)
    requires WellFormed(g)
  {
    if guard.complete then sent == []
    else
      && guard.piece < |g.hashes| && guard.offset < PieceSize(g, guard.piece)
      && sent == [Request(guard.piece, guard.offset, Min(16384, PieceSize(g, guard.piece) - guard.offset))]
  }

  // A marked piece is served, byte by byte, inside the torrent; nothing else is.
  predicate Serves(g: Geometry, s: State, index: nat, begin: nat, length: nat, sent: seq<Message>) {
    var at := index * g.pieceLength + begin;
    if index < |s.have| && s.have[index] && at + length <= |s.disk|
    then
      && |sent| == 1 && sent[0].Piece? && sent[0].index == index && sent[0].begin == begin
      && |sent[0].block| == length && forall x :: 0 <= x < length ==> sent[0].block[x] == s.disk[at + x]
    else sent == []
  }

  // The block is on the disk where the message says, clipped at the torrent's end, and the rest is as before.
  predicate Overwritten(before: bytes, after: bytes, at: nat, block: bytes) {
    && |after| == |before|
    && forall x :: 0 <= x < |before| ==> after[x] == if at <= x < at + |block| then block[x - at] else before[x]
  }

  // Only the acting engine and the two ends of the connection change.
  predicate OthersKept(net: Net, net': Net, e: nat, n: nat) {
    && |net'.nodes| == |net.nodes| && |net'.ends| == |net.ends|
    && (forall k :: 0 <= k < |net.nodes| && k != n ==> net'.nodes[k] == net.nodes[k])
    && (forall f :: 0 <= f < |net.ends| && f != e && f != Other(e) ==> net'.ends[f] == net.ends[f])
  }

  lemma WaitingAsks(g: Geometry, s: State, p: nat)
    requires WellFormed(g) && Shape(g, s) && p < |s.peers| && s.peers[p].Waiting?
    ensures RequestsRest(g, s.peers[p].guard, Ask(g, s.peers[p].guard))
  {
    hide CeilDiv;
    var guard := s.peers[p].guard;
    assert s.peers[p] in s.peers;
    if !guard.complete {
      GuardsCanAlwaysAsk(g, s, p);
      RequestLengthIsRest(g, guard.piece, guard.offset);
    }
  }

  // --- events of a peer loop ---

  lemma OtherEnd(net: Net, e: nat)
    requires Wired(net) && e < |net.ends|
    ensures Other(e) < |net.ends| && Other(e) != e && Attached(net, e)
  {
  }

  // What the acting loop sends arrives at the other end, after what waits there.
  lemma LoopActs(g: Geometry, H: bytes -> Digest, net: Net, ev: Event, e: nat)
    requires WellFormed(g) && Possible(g, net, ev) && ActorOf(ev) == Some(e)
    ensures var net' := Happen(g, H, net, ev);
            && e < |net.ends| && NodeOf(g, net, ev) == net.ends[e].node < |net.nodes|
            && OthersKept(net, net', e, net.ends[e].node) && Received(net, net', Other(e))
            && Arrived(net, net', Other(e)) == Sent(g, H, net, ev)
            && net'.nodes[net.ends[e].node] == NodeAfter(g, H, net, ev)
            && net'.ends[e] == EndAfter(g, H, net, ev, e)
  {
    hide Sent, NodeAfter, Wired, Happen;
    OtherEnd(net, e);
    EndsAfter(g, H, net, ev);
  }

  lemma RepliesAre(g: Geometry, s: State, p: nat, m: Message)
    requires WellFormed(g) && Shape(g, s) && p < |s.peers| && s.peers[p].Waiting?
    ensures var guard, sent := s.peers[p].guard, Response(g, s, s.peers[p].guard, m);
            match m
            case Interested => sent == [Unchoke]
            case Unchoke => RequestsRest(g, guard, sent)
            case Request(index, begin, length) => Serves(g, s, index, begin, length, sent)
            case Piece(_, _, _) => sent == []
  {
    hide Shape, RequestsRest, Ask;
    WaitingAsks(g, s, p);
  }

  lemma Overwrites(f: bytes, at: nat, block: bytes)
    ensures Overwritten(f, Splice(f, at, block), at, block)
  {
    hide Splice;
    forall x | 0 <= x < |f| ensures Splice(f, at, block)[x] == if at <= x < at + |block| then block[x - at] else f[x] {
      SpliceAt(f, at, block, x);
    }
  }

  // A loop reads the first message that waits. It answers Interested with Unchoke, Unchoke with its request and a
  // request with the block; and it writes any Piece message to the disk.
  lemma ReadDoes(g: Geometry, H: bytes -> Digest, net: Net, e: nat, m: Message, rest: seq<Message>)
    requires WellFormed(g) && Possible(g, net, Read(e)) && net.ends[e].inbox == [m] + rest
    requires net.ends[e].node < |net.nodes| && Shape(g, net.nodes[net.ends[e].node])
    ensures var net', n, f := Happen(g, H, net, Read(e)), net.ends[e].node, Other(e);
            && OthersKept(net, net', e, n) && Received(net, net', f) && net'.ends[e] == net.ends[e].(inbox := rest)
            && net.ends[e].peer.Some? && net.ends[e].peer.value < |net.nodes[n].peers|
            && var s, s', sent, p := net.nodes[n], net'.nodes[n], Arrived(net, net', f), net.ends[e].peer.value;
            match m
            case Interested => s' == s && sent == [Unchoke]
            case Unchoke => s' == s && RequestsRest(g, s.peers[p].guard, sent)
            case Request(index, begin, length) => s' == s && Serves(g, s, index, begin, length, sent)
            case Piece(index, begin, block) =>
              && sent == [] && Overwritten(s.disk, s'.disk, index * g.pieceLength + begin, block)
              && s' == s.(disk := s'.disk, peers := s.peers[p := Written(s.peers[p].guard, |block|)])
  {
    hide Shape, CeilDiv, Splice, Wired, Happen, RequestsRest, Serves, Overwritten, OthersKept, Response;
    LoopActs(g, H, net, Read(e), e);
    assert ([m] + rest)[1..] == rest;
    var s, p := net.nodes[net.ends[e].node], net.ends[e].peer.value;
    RepliesAre(g, s, p, m);
    if m.Piece? {
      Overwrites(s.disk, m.index * g.pieceLength + m.begin, m.block);
    }
  }

  // A new loop greets the other end with Interested and Unchoke, and takes the first piece of the queue, if any.
  lemma BeginDoes(g: Geometry, H: bytes -> Digest, net: Net, e: nat)
    requires WellFormed(g) && Possible(g, net, Begin(e))
    requires net.ends[e].node < |net.nodes|
    ensures var net', n, f := Happen(g, H, net, Begin(e)), net.ends[e].node, Other(e);
            && OthersKept(net, net', e, n) && Received(net, net', f)
            && Arrived(net, net', f) == [Interested, Unchoke]
            && var s, s' := net.nodes[n], net'.nodes[n];
            && net'.ends[e] == net.ends[e].(peer := Some(|s.peers|))
            && s' == if s.missing == [] then s.(peers := s.peers + [Waiting(Guard(0, 0, true))])
                     else s.(peers := s.peers + [Waiting(Guard(s.missing[0], 0, false))], missing := s.missing[1..])
  {
    hide CeilDiv, Wired, Happen, OthersKept;
    LoopActs(g, H, net, Begin(e), e);
  }

  // The guard of a loop once a block of that length has been counted.
  function Counting(g: Geometry, guard: Guard, len: nat): Phase
    requires WellFormed(g) && guard.piece < |g.hashes|
  {
    var offset := (guard.offset + len) % 0x1_0000_0000;
    if offset >= PieceSize(g, guard.piece) then Finished(Guard(guard.piece, offset, true), !guard.complete)
    else Waiting(Guard(guard.piece, offset, guard.complete))
  }

  // After a Piece message the loop counts the block; once the piece is complete it marks it and takes the first piece
  // of the queue, if any. Then, or if the piece needs more, it sends its request.
  lemma ProceedDoes(g: Geometry, H: bytes -> Digest, net: Net, e: nat)
    requires WellFormed(g) && Possible(g, net, Proceed(e))
    requires net.ends[e].node < |net.nodes| && Shape(g, net.nodes[net.ends[e].node])
    ensures var net', n, f := Happen(g, H, net, Proceed(e)), net.ends[e].node, Other(e);
            && OthersKept(net, net', e, n) && Received(net, net', f) && net'.ends[e] == net.ends[e]
            && net.ends[e].peer.Some? && net.ends[e].peer.value < |net.nodes[n].peers| <= |net'.nodes[n].peers|
            && var s, s', sent, p := net.nodes[n], net'.nodes[n], Arrived(net, net', f), net.ends[e].peer.value;
            && (if s'.peers[p].Waiting? then RequestsRest(g, s'.peers[p].guard, sent) else sent == [])
            && match s.peers[p]
               case Written(guard, len) =>
                 guard.piece < |g.hashes| ==>
                   var downloaded := Min(s.downloaded + len, g.total);
                   s' == s.(downloaded := downloaded,
                            status := if downloaded == g.total then Completed else Downloading,
                            peers := s.peers[p := Counting(g, guard, len)])
               case Finished(guard, _) =>
                 guard.piece < |s.have| ==>
                   s' == s.(have := s.have[guard.piece := true], peers := s.peers[p := Marked(guard)])
               case Marked(guard) =>
                 s' == if s.missing == [] then s.(peers := s.peers[p := Waiting(guard)])
                       else s.(missing := s.missing[1..], peers := s.peers[p := Waiting(Guard(s.missing[0], 0, false))])
               case _ => false
  {
    hide Shape, CeilDiv, Wired, Happen, RequestsRest, OthersKept, TargetSize, Ask, PieceSize;
    LoopActs(g, H, net, Proceed(e), e);
    var s, p := net.nodes[net.ends[e].node], net.ends[e].peer.value;
    var s' := NodeAfter(g, H, net, Proceed(e));
    StepKeepsShape(g, H, s, Follow(s.peers[p], p));
    if s'.peers[p].Waiting? {
      WaitingAsks(g, s', p);
    }
    if s.peers[p].Written? && s.peers[p].guard.piece < |g.hashes| {
      TargetIsPieceSize(g, s.peers[p].guard.piece);
    }
  }

  // A loop that ends sends nothing; an incomplete guard leaves a refund behind.
  lemma HangupDoes(g: Geometry, H: bytes -> Digest, net: Net, e: nat)
    requires WellFormed(g) && Possible(g, net, Hangup(e))
    requires net.ends[e].node < |net.nodes|
    ensures var net', n, f := Happen(g, H, net, Hangup(e)), net.ends[e].node, Other(e);
            && OthersKept(net, net', e, n) && net'.ends[e] == net.ends[e]
            && Received(net, net', f) && Arrived(net, net', f) == []
            && net.ends[e].peer.Some? && net.ends[e].peer.value < |net.nodes[n].peers|
            && var s, p := net.nodes[n], net.ends[e].peer.value;
               var guard, open := s.peers[p].guard, (s.peers[p].Waiting? || s.peers[p].Written?);
               net'.nodes[n] == s.(peers := s.peers[p := Gone],
                                   refunds := if open && !guard.complete
                                              then s.refunds + [Owed(guard.piece, guard.offset)] else s.refunds)
  {
    hide CeilDiv, Wired, Happen, OthersKept;
    LoopActs(g, H, net, Hangup(e), e);
  }

  // --- order ---

  // What an end's loop reads in an event: the first message that waits.
  function ReadIn(net: Net, ev: Event, f: nat): seq<Message> {
    if ev == Read(f) && f < |net.ends| && net.ends[f].inbox != [] then [net.ends[f].inbox[0]] else []
  }

  // What the other end's loop sends in it.
  function SentIn(g: Geometry, H: bytes -> Digest, net: Net, ev: Event, f: nat): seq<Message>
    requires WellFormed(g) && Possible(g, net, ev)
  {
    if ActorOf(ev) == Some(Other(f)) then Sent(g, H, net, ev) else []
  }

  // The same during a run.
  function ReadsAt(g: Geometry, H: bytes -> Digest, net: Net, run: seq<Event>, f: nat): seq<Message>
    requires WellFormed(g) && PossibleRun(g, H, net, run) && f < |net.ends|
    decreases |run|
  {
    if run == [] then []
    else
      EndsAfter(g, H, net, run[0]);
      ReadIn(net, run[0], f) + ReadsAt(g, H, Happen(g, H, net, run[0]), run[1..], f)
  }

  function SendsTo(g: Geometry, H: bytes -> Digest, net: Net, run: seq<Event>, f: nat): seq<Message>
    requires WellFormed(g) && PossibleRun(g, H, net, run) && f < |net.ends|
    decreases |run|
  {
    if run == [] then []
    else
      EndsAfter(g, H, net, run[0]);
      SentIn(g, H, net, run[0], f) + SendsTo(g, H, Happen(g, H, net, run[0]), run[1..], f)
  }

  // A connection delivers what is sent, once and in order: along every run, what an end reads, followed by what still
  // waits there, is what waited, followed by what the other end sent.
  lemma {:induction false} DeliversInOrder(g: Geometry, H: bytes -> Digest, net: Net, run: seq<Event>, f: nat)
    requires WellFormed(g) && PossibleRun(g, H, net, run) && f < |net.ends|
    ensures f < |Outcome(g, H, net, run).ends|
    ensures ReadsAt(g, H, net, run, f) + Outcome(g, H, net, run).ends[f].inbox
            == net.ends[f].inbox + SendsTo(g, H, net, run, f)
    decreases |run|
  {
    hide Possible, Happen, SentIn, ReadIn, EndAfter;
    if run != [] {
      var net', rest := Happen(g, H, net, run[0]), run[1..];
      EndsAfter(g, H, net, run[0]);
      DeliversInOrder(g, H, net', rest, f);
      var taken, added := ReadIn(net, run[0], f), SentIn(g, H, net, run[0], f);
      InboxAfter(g, H, net, run[0], f);
      ConcatAssoc(taken, ReadsAt(g, H, net', rest, f), Outcome(g, H, net', rest).ends[f].inbox);
      ConcatAssoc(taken, net'.ends[f].inbox, SendsTo(g, H, net', rest, f));
      ConcatAssoc(net.ends[f].inbox, added, SendsTo(g, H, net', rest, f));
    }
  }

  lemma InboxAfter(g: Geometry, H: bytes -> Digest, net: Net, ev: Event, f: nat)
    requires WellFormed(g) && Possible(g, net, ev) && f < |net.ends| && f < |Happen(g, H, net, ev).ends|
    ensures ReadIn(net, ev, f) + Happen(g, H, net, ev).ends[f].inbox == net.ends[f].inbox + SentIn(g, H, net, ev, f)
  {
    hide Sent, Happen, Wired;
    EndsAfter(g, H, net, ev);
    OtherEnd(net, f);
    var inbox := net.ends[f].inbox;
    if ev == Read(f) {
      assert [inbox[0]] + inbox[1..] == inbox + [];
    } else {
      assert [] + inbox == inbox == inbox + [];
    }
  }
}
