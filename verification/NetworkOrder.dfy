// When every Piece message in a network of engines answers the request it is received under.
module NetworkOrder {
  import opened Prelude
  import opened Geometry
  import opened Swarm
  import opened SwarmProofs
  import opened SwarmTruth
  import opened Network

  // --- what is under way for an end ---

  function RepliesIn(ms: seq<Message>): seq<Message> {
    if ms == [] then [] else (if ms[0].Piece? then [ms[0]] else []) + RepliesIn(ms[1..])
  }

  function RequestsIn(ms: seq<Message>): seq<Message> {
    if ms == [] then [] else (if ms[0].Request? then [ms[0]] else []) + RequestsIn(ms[1..])
  }

  // The replies that have not been read and the requests that have not been answered, in the order in which they
  // were made.
  function Pending(net: Net, e: nat): seq<Message>
    requires e < |net.ends| && Other(e) < |net.ends|
  {
    RepliesIn(net.ends[e].inbox) + RequestsIn(net.ends[Other(e)].inbox)
  }

  // The message is the current request of the guard, or a true reply to it.
  predicate Current(g: Geometry, truth: bytes, guard: Guard, m: Message) {
    match m
    case Request(_, _, _) => Ask(g, guard) == [m]
    case Piece(index, begin, block) =>
      Ask(g, guard) == [Request(index, begin, |block|)] && TrueBlock(g, truth, index, begin, block)
    case _ => false
  }

  // At most the current request is under way, and only while its peer loop waits.
  predicate OrderlyEnd(g: Geometry, truth: bytes, net: Net, e: nat)
    requires e < |net.ends| && Other(e) < |net.ends|
  {
    var pending := Pending(net, e);
    if net.ends[e].peer.None? then pending == []
    else
      match PhaseAt(net, e)
      case Waiting(guard) => pending == [] || (|pending| == 1 && Current(g, truth, guard, pending[0]))
      case Gone => true
      case _ => pending == []
  }

  predicate OrderlyNode(g: Geometry, truth: bytes, s: State)
    requires WellFormed(g) && |truth| == g.total
  {
    Inv(g, s) && Tidy(g, s) && Sound(g, truth, IsTrue(g, truth), s)
  }

  predicate Orderly(g: Geometry, truth: bytes, net: Net)
    requires WellFormed(g) && |truth| == g.total
  {
    && Wired(net)
    && (forall n :: 0 <= n < |net.nodes| ==> OrderlyNode(g, truth, net.nodes[n]))
    && (forall e :: 0 <= e < |net.ends| ==> OrderlyEnd(g, truth, net, e))
  }

  // An Unchoke does not reach an incomplete guard that has a request under way; a peer loop does not end between
  // completing a piece and marking it; and a session does not start from a disk with a false match.
  predicate Safe(g: Geometry, H: bytes -> Digest, truth: bytes, net: Net, ev: Event)
    requires WellFormed(g) && |truth| == g.total && Possible(g, net, ev)
  {
    match ev
    case Read(e) => net.ends[e].inbox[0].Unchoke? && !PhaseAt(net, e).guard.complete ==> Pending(net, e) == []
    case Hangup(e) => !PhaseAt(net, e).Finished?
    case Reset(n) => NoFalseMatch(g, H, truth, net.nodes[n].disk)
    case _ => true
  }

  // --- how an event changes what is under way ---

  lemma {:induction false} RepliesConcat(a: seq<Message>, b: seq<Message>)
    ensures RepliesIn(a + b) == RepliesIn(a) + RepliesIn(b)
  {
    if a == [] {
      assert a + b == b;
    } else {
      assert (a + b)[1..] == a[1..] + b;
      RepliesConcat(a[1..], b);
      ConcatAssoc(if a[0].Piece? then [a[0]] else [], RepliesIn(a[1..]), RepliesIn(b));
    }
  }

  lemma {:induction false} RequestsConcat(a: seq<Message>, b: seq<Message>)
    ensures RequestsIn(a + b) == RequestsIn(a) + RequestsIn(b)
  {
    if a == [] {
      assert a + b == b;
    } else {
      assert (a + b)[1..] == a[1..] + b;
      RequestsConcat(a[1..], b);
      ConcatAssoc(if a[0].Request? then [a[0]] else [], RequestsIn(a[1..]), RequestsIn(b));
    }
  }

  lemma OneMessage(m: Message)
    ensures RepliesIn([m]) == (if m.Piece? then [m] else [])
    ensures RequestsIn([m]) == (if m.Request? then [m] else [])
    ensures RepliesIn([]) == RequestsIn([]) == []
  {
    assert [m][1..] == [];
  }

  // What a peer loop may send, by kind.
  lemma SentKinds(g: Geometry, H: bytes -> Digest, net: Net, ev: Event)
    requires WellFormed(g) && Possible(g, net, ev)
    ensures var sent := Sent(g, H, net, ev);
            && RepliesIn(sent) == (if ev.Read? && net.ends[ev.e].inbox[0].Request? then sent else [])
            && RequestsIn(sent) == (if ev.Proceed? || (ev.Read? && net.ends[ev.e].inbox[0].Unchoke?) then sent else [])
  {
    hide NodeOf, PhaseAfter, Wired, Ask, Reply;
    OneMessage(Interested);
    OneMessage(Unchoke);
    assert GREETING[1..] == [Unchoke];
    match ev
    case Read(e) =>
      var s, guard := net.nodes[NodeOf(g, net, ev)], PhaseAt(net, e).guard;
      AskKind(g, guard);
      match net.ends[e].inbox[0] {
        case Request(index, begin, length) => ReplyKind(g, s, index, begin, length);
        case _ =>
      }
    case Proceed(_) =>
      var ph := PhaseAfter(g, H, net, ev);
      if ph.Waiting? {
        AskKind(g, ph.guard);
      }
    case _ =>
  }

  lemma AskKind(g: Geometry, guard: Guard)
    ensures RequestsIn(Ask(g, guard)) == Ask(g, guard) && RepliesIn(Ask(g, guard)) == []
  {
    hide GetRequestLength;
    var ms := Ask(g, guard);
    if ms != [] {
      OneMessage(ms[0]);
    }
  }

  lemma ReplyKind(g: Geometry, s: State, index: nat, begin: nat, length: nat)
    ensures var ms := Reply(g, s, index, begin, length); RepliesIn(ms) == ms && RequestsIn(ms) == []
  {
    var ms := Reply(g, s, index, begin, length);
    if ms != [] {
      OneMessage(ms[0]);
    }
  }

  // The pending messages of an end after an event.
  function PendingAfter(g: Geometry, H: bytes -> Digest, net: Net, ev: Event, f: nat): seq<Message>
    requires WellFormed(g) && Possible(g, net, ev) && f < |net.ends| && Other(f) < |net.ends|
  {
    var replies, requests := RepliesIn(net.ends[f].inbox), RequestsIn(net.ends[Other(f)].inbox);
    if ev == Read(f) && net.ends[f].inbox[0].Piece? then replies[1..] + requests
    else if ev == Read(Other(f)) && net.ends[Other(f)].inbox[0].Request? then
      replies + Sent(g, H, net, ev) + requests[1..]
    else if ev == Proceed(f) || (ev == Read(f) && net.ends[f].inbox[0].Unchoke?) then
      replies + requests + Sent(g, H, net, ev)
    else replies + requests
  }

  lemma HeadOf(ms: seq<Message>)
    requires ms != []
    ensures RepliesIn(ms) == (if ms[0].Piece? then [ms[0]] else []) + RepliesIn(ms[1..])
    ensures RequestsIn(ms) == (if ms[0].Request? then [ms[0]] else []) + RequestsIn(ms[1..])
    ensures ms[0].Piece? ==>
              RepliesIn(ms) != [] && RepliesIn(ms)[0] == ms[0] && RepliesIn(ms)[1..] == RepliesIn(ms[1..])
    ensures ms[0].Request? ==>
              RequestsIn(ms) != [] && RequestsIn(ms)[0] == ms[0] && RequestsIn(ms)[1..] == RequestsIn(ms[1..])
    ensures !ms[0].Piece? ==> RepliesIn(ms) == RepliesIn(ms[1..])
    ensures !ms[0].Request? ==> RequestsIn(ms) == RequestsIn(ms[1..])
  {
    assert [] + RepliesIn(ms[1..]) == RepliesIn(ms[1..]) && [] + RequestsIn(ms[1..]) == RequestsIn(ms[1..]);
  }

  lemma RepliesAfter(g: Geometry, H: bytes -> Digest, net: Net, ev: Event, f: nat)
    requires WellFormed(g) && Possible(g, net, ev) && f < |net.ends|
    ensures var replies := RepliesIn(net.ends[f].inbox);
            RepliesIn(EndAfter(g, H, net, ev, f).inbox)
            == if ev == Read(f) && net.ends[f].inbox[0].Piece? then RepliesIn(net.ends[f].inbox[1..])
               else if ev == Read(Other(f)) && Other(f) < |net.ends| && net.ends[Other(f)].inbox[0].Request? then
                 replies + Sent(g, H, net, ev)
               else replies
  {
    hide Sent, NodeOf, Wired, RepliesIn, RequestsIn;
    SentKinds(g, H, net, ev);
    RepliesConcat(net.ends[f].inbox, Sent(g, H, net, ev));
    if ev == Read(f) {
      HeadOf(net.ends[f].inbox);
    }
    assert RepliesIn(net.ends[f].inbox) + [] == RepliesIn(net.ends[f].inbox);
  }

  lemma RequestsAfter(g: Geometry, H: bytes -> Digest, net: Net, ev: Event, f: nat)
    requires WellFormed(g) && Possible(g, net, ev) && f < |net.ends| && Other(f) < |net.ends|
    ensures var requests := RequestsIn(net.ends[f].inbox);
            RequestsIn(EndAfter(g, H, net, ev, f).inbox)
            == if ev == Read(f) && net.ends[f].inbox[0].Request? then RequestsIn(net.ends[f].inbox[1..])
               else if ev == Proceed(Other(f)) || (ev == Read(Other(f)) && net.ends[Other(f)].inbox[0].Unchoke?) then
                 requests + Sent(g, H, net, ev)
               else requests
  {
    hide Sent, NodeOf, Wired, RepliesIn, RequestsIn;
    SentKinds(g, H, net, ev);
    RequestsConcat(net.ends[f].inbox, Sent(g, H, net, ev));
    if ev == Read(f) {
      HeadOf(net.ends[f].inbox);
    }
    assert RequestsIn(net.ends[f].inbox) + [] == RequestsIn(net.ends[f].inbox);
  }

  lemma PendingIs(g: Geometry, H: bytes -> Digest, net: Net, ev: Event, f: nat)
    requires WellFormed(g) && Possible(g, net, ev) && f < |net.ends| && Other(f) < |net.ends|
    ensures Other(f) < |Happen(g, H, net, ev).ends|
    ensures Pending(Happen(g, H, net, ev), f) == PendingAfter(g, H, net, ev, f)
  {
    hide Sent, NodeOf, Happen, Wired, RepliesIn, RequestsIn, EndAfter, PhaseAt, WellFormed;
    EndsAfter(g, H, net, ev);
    RepliesAfter(g, H, net, ev, f);
    RequestsAfter(g, H, net, ev, Other(f));
    if ev == Read(f) {
      HeadOf(net.ends[f].inbox);
    }
    if ev == Read(Other(f)) {
      HeadOf(net.ends[Other(f)].inbox);
    }
    ConcatAssoc(RepliesIn(net.ends[f].inbox), RequestsIn(net.ends[Other(f)].inbox), Sent(g, H, net, ev));
  }

  // --- every event ---

  lemma WiredAt(net: Net, e: nat)
    requires Wired(net) && e < |net.ends|
    ensures Other(e) < |net.ends| && net.ends[e].node < |net.nodes|
    ensures !PhaseAt(net, e).Gone? ==>
              net.ends[e].peer.Some? && net.ends[e].peer.value < |net.nodes[net.ends[e].node].peers|
                                       && PhaseAt(net, e) in net.nodes[net.ends[e].node].peers
  {
    assert Attached(net, e);
  }

  // What an incomplete guard of an orderly engine asks for.
  lemma AskIs(g: Geometry, s: State, ph: Phase)
    requires WellFormed(g) && Shape(g, s) && ph in s.peers && Incomplete(ph)
    ensures var i, offset := ph.guard.piece, ph.guard.offset;
            && i < |g.hashes| && offset < PieceSize(g, i)
            && Ask(g, ph.guard) == [Request(i, offset, Min(BLOCK, PieceSize(g, i) - offset))]
  {
    hide GetRequestLength;
    var p :| 0 <= p < |s.peers| && s.peers[p] == ph;
    GuardsCanAlwaysAsk(g, s, p);
    RequestLengthIsRest(g, ph.guard.piece, ph.guard.offset);
  }

  // A slice of a marked piece is true.
  lemma ServedIsTrue(g: Geometry, truth: bytes, s: State, i: nat, begin: nat, length: nat)
    requires WellFormed(g) && |truth| == g.total && Shape(g, s) && Sound(g, truth, IsTrue(g, truth), s)
    requires i < |g.hashes| && s.have[i] && begin + length <= PieceSize(g, i)
    ensures Reply(g, s, i, begin, length) != []
    ensures var m := Reply(g, s, i, begin, length)[0];
            && m.Piece? && m.index == i && m.begin == begin && |m.block| == length
            && TrueBlock(g, truth, i, begin, m.block)
  {
    PieceBounds(g, i);
    var start, end := PieceStart(g, i), PieceStart(g, i) + PieceSize(g, i);
    assert IsTrue(g, truth)(i, PieceAt(g, s.disk, i));
    SliceOfSlice(s.disk, start, end, begin, begin + length);
    SliceOfSlice(truth, start, end, begin, begin + length);
  }

  // A Piece message that is read is the current reply.
  lemma ReadsCurrent(g: Geometry, truth: bytes, net: Net, e: nat)
    requires WellFormed(g) && |truth| == g.total && Orderly(g, truth, net) && Possible(g, net, Read(e))
    requires net.ends[e].inbox[0].Piece?
    ensures Other(e) < |net.ends| && Pending(net, e) == [net.ends[e].inbox[0]]
    ensures Current(g, truth, PhaseAt(net, e).guard, net.ends[e].inbox[0])
  {
    hide Current, OrderlyNode, RepliesIn, RequestsIn, Wired;
    WiredAt(net, e);
    HeadOf(net.ends[e].inbox);
    assert OrderlyEnd(g, truth, net, e);
    assert Pending(net, e) != [] && Pending(net, e)[0] == net.ends[e].inbox[0];
  }

  lemma NodeStaysOrderly(g: Geometry, H: bytes -> Digest, truth: bytes, net: Net, ev: Event)
    requires WellFormed(g) && |truth| == g.total && Orderly(g, truth, net)
    requires Possible(g, net, ev) && Safe(g, H, truth, net, ev)
    ensures OrderlyNode(g, truth, NodeAfter(g, H, net, ev))
  {
    hide Inv, Tidy, Sound, Next, OrderlyEnd, IsTrue, Current, Answers, ResumesGood, Wired;
    var n, step := NodeOf(g, net, ev), StepOf(g, net, ev);
    assert OrderlyNode(g, truth, net.nodes[n]);
    if step.Some? {
      if ev.Read? {
        ReadsCurrent(g, truth, net, ev.e);
        CurrentIsExpected(g, truth, net, ev.e);
      }
      TrueIsCriterion(g, truth);
      StepSound(g, H, truth, IsTrue(g, truth), net.nodes[n], step.value);
    }
  }

  lemma TrueIsCriterion(g: Geometry, truth: bytes)
    requires WellFormed(g) && |truth| == g.total
    ensures Criterion(g, truth, IsTrue(g, truth))
  {
  }

  lemma CurrentIsExpected(g: Geometry, truth: bytes, net: Net, e: nat)
    requires WellFormed(g) && |truth| == g.total && Orderly(g, truth, net) && Possible(g, net, Read(e))
    requires net.ends[e].inbox[0].Piece? && Current(g, truth, PhaseAt(net, e).guard, net.ends[e].inbox[0])
    ensures var m := net.ends[e].inbox[0];
            && TrueBlock(g, truth, m.index, m.begin, m.block)
            && Answers(g, PhaseAt(net, e).guard, m.index, m.begin, |m.block|)
  {
    hide OrderlyEnd, Wired, Tidy, Sound, Partition, Conservation, Ask;
    WiredAt(net, e);
    var s, ph := net.nodes[net.ends[e].node], PhaseAt(net, e);
    assert OrderlyNode(g, truth, s);
    assert ph.guard.complete ==> Ask(g, ph.guard) == [] by { CompleteAsksNothing(g, ph.guard); }
    AskIs(g, s, ph);
  }

  lemma CompleteAsksNothing(g: Geometry, guard: Guard)
    ensures guard.complete ==> Ask(g, guard) == []
  {
  }

  // The reading end.
  lemma ReaderStaysOrderly(g: Geometry, H: bytes -> Digest, truth: bytes, net: Net, e: nat)
    requires WellFormed(g) && |truth| == g.total && Orderly(g, truth, net)
    requires Possible(g, net, Read(e)) && Safe(g, H, truth, net, Read(e))
    ensures e < |Happen(g, H, net, Read(e)).ends| && Other(e) < |Happen(g, H, net, Read(e)).ends|
    ensures OrderlyEnd(g, truth, Happen(g, H, net, Read(e)), e)
  {
    hide OrderlyNode, RepliesIn, RequestsIn, Wired, Ask, Happen, Next;
    WiredAt(net, e);
    Effect(g, H, net, Read(e));
    EndsAfter(g, H, net, Read(e));
    PendingIs(g, H, net, Read(e), e);
    assert OrderlyEnd(g, truth, net, e);
    var m, guard := net.ends[e].inbox[0], PhaseAt(net, e).guard;
    CompleteAsksNothing(g, guard);
    HeadOf(net.ends[e].inbox);
    if m.Piece? {
      ReadsCurrent(g, truth, net, e);
      ReadWritten(g, H, net, e);
    } else {
      assert PhaseAfter(g, H, net, Read(e)) == PhaseAt(net, e) by { WiredAt(net, e); }
      if m.Unchoke? && !guard.complete {
        ReaderAsks(g, truth, net, e);
      }
    }
  }

  lemma ReadWritten(g: Geometry, H: bytes -> Digest, net: Net, e: nat)
    requires WellFormed(g) && Possible(g, net, Read(e)) && net.ends[e].inbox[0].Piece?
    ensures PhaseAfter(g, H, net, Read(e)).Written?
  {
    assert Attached(net, e);
  }

  lemma ReaderAsks(g: Geometry, truth: bytes, net: Net, e: nat)
    requires WellFormed(g) && |truth| == g.total && Orderly(g, truth, net) && Possible(g, net, Read(e))
    requires !PhaseAt(net, e).guard.complete
    ensures var guard := PhaseAt(net, e).guard;
            |Ask(g, guard)| == 1 && Current(g, truth, guard, Ask(g, guard)[0])
  {
    hide Wired, OrderlyEnd, Tidy, Sound, Partition, Conservation, Ask;
    WiredAt(net, e);
    var s := net.nodes[net.ends[e].node];
    assert OrderlyNode(g, truth, s);
    AskIs(g, s, PhaseAt(net, e));
  }

  // The end whose messages are read.
  lemma SenderStaysOrderly(g: Geometry, H: bytes -> Digest, truth: bytes, net: Net, e: nat, f: nat)
    requires WellFormed(g) && |truth| == g.total && Orderly(g, truth, net) && Possible(g, net, Read(e))
    requires f < |net.ends| && e == Other(f)
    ensures f < |Happen(g, H, net, Read(e)).ends| && Other(f) < |Happen(g, H, net, Read(e)).ends|
    ensures OrderlyEnd(g, truth, Happen(g, H, net, Read(e)), f)
  {
    hide OrderlyNode, RepliesIn, RequestsIn, Wired, Ask, Reply, Happen, Next, Current;
    WiredAt(net, e);
    WiredAt(net, f);
    Effect(g, H, net, Read(e));
    EndsAfter(g, H, net, Read(e));
    PendingIs(g, H, net, Read(e), f);
    assert OrderlyEnd(g, truth, net, f);
    var m := net.ends[e].inbox[0];
    HeadOf(net.ends[e].inbox);
    if m.Request? && PhaseAt(net, f).Waiting? {
      assert Pending(net, f) == [m] && RepliesIn(net.ends[f].inbox) == [];
      var sent := Sent(g, H, net, Read(e));
      assert [] + sent + [] == sent;
      ReplyIsCurrent(g, H, truth, net, e, f);
    }
  }

  lemma ReplyIsCurrent(g: Geometry, H: bytes -> Digest, truth: bytes, net: Net, e: nat, f: nat)
    requires WellFormed(g) && |truth| == g.total && Orderly(g, truth, net) && Possible(g, net, Read(e))
    requires f < |net.ends| && PhaseAt(net, f).Waiting?
    requires net.ends[e].inbox[0].Request? && Current(g, truth, PhaseAt(net, f).guard, net.ends[e].inbox[0])
    ensures var sent := Sent(g, H, net, Read(e));
            sent == [] || (|sent| == 1 && Current(g, truth, PhaseAt(net, f).guard, sent[0]))
  {
    hide Wired, OrderlyEnd, Tidy, Partition, Conservation, Sound, Ask, Reply;
    WiredAt(net, e);
    WiredAt(net, f);
    var m, server := net.ends[e].inbox[0], net.nodes[net.ends[e].node];
    assert OrderlyNode(g, truth, server) && OrderlyNode(g, truth, net.nodes[net.ends[f].node]);
    CompleteAsksNothing(g, PhaseAt(net, f).guard);
    AskIs(g, net.nodes[net.ends[f].node], PhaseAt(net, f));
    if server.have[m.index] {
      ServedIsTrue(g, truth, server, m.index, m.begin, m.length);
      OneReply(g, server, m.index, m.begin, m.length);
    } else {
      NoReply(g, server, m.index, m.begin, m.length);
    }
  }

  lemma OneReply(g: Geometry, s: State, i: nat, begin: nat, length: nat)
    ensures |Reply(g, s, i, begin, length)| <= 1
  {
  }

  lemma NoReply(g: Geometry, s: State, i: nat, begin: nat, length: nat)
    requires i < |s.have| && !s.have[i]
    ensures Reply(g, s, i, begin, length) == []
  {
  }

  // Handling a Piece message further.
  lemma ProceederStaysOrderly(g: Geometry, H: bytes -> Digest, truth: bytes, net: Net, e: nat)
    requires WellFormed(g) && |truth| == g.total && Orderly(g, truth, net) && Possible(g, net, Proceed(e))
    requires OrderlyNode(g, truth, NodeAfter(g, H, net, Proceed(e)))
    ensures e < |Happen(g, H, net, Proceed(e)).ends| && Other(e) < |Happen(g, H, net, Proceed(e)).ends|
    ensures OrderlyEnd(g, truth, Happen(g, H, net, Proceed(e)), e)
  {
    hide RepliesIn, RequestsIn, Wired, Ask, Happen, Next, Tidy, Sound, Partition, Conservation, Follow;
    WiredAt(net, e);
    Effect(g, H, net, Proceed(e));
    EndsAfter(g, H, net, Proceed(e));
    PendingIs(g, H, net, Proceed(e), e);
    assert OrderlyEnd(g, truth, net, e);
    var s, ph := NodeAfter(g, H, net, Proceed(e)), PhaseAfter(g, H, net, Proceed(e));
    assert [] + Sent(g, H, net, Proceed(e)) == Sent(g, H, net, Proceed(e));
    if ph.Waiting? {
      CompleteAsksNothing(g, ph.guard);
      if !ph.guard.complete {
        assert ph in s.peers;
        AskIs(g, s, ph);
      }
    }
  }

  lemma EndStaysOrderly(g: Geometry, H: bytes -> Digest, truth: bytes, net: Net, ev: Event, f: nat)
    requires WellFormed(g) && |truth| == g.total && Orderly(g, truth, net)
    requires Possible(g, net, ev) && Safe(g, H, truth, net, ev)
    requires f < |Happen(g, H, net, ev).ends| && Other(f) < |Happen(g, H, net, ev).ends|
    ensures OrderlyEnd(g, truth, Happen(g, H, net, ev), f)
  {
    hide OrderlyNode, RepliesIn, RequestsIn, Wired, Happen, Next, Current, Safe, Sent;
    if ev == Read(f) {
      ReaderStaysOrderly(g, H, truth, net, f);
    } else if ev == Read(Other(f)) && f < |net.ends| {
      SenderStaysOrderly(g, H, truth, net, Other(f), f);
    } else if ev == Proceed(f) {
      NodeStaysOrderly(g, H, truth, net, ev);
      ProceederStaysOrderly(g, H, truth, net, f);
    } else {
      BystanderStaysOrderly(g, H, truth, net, ev, f);
    }
  }

  lemma BystanderStaysOrderly(g: Geometry, H: bytes -> Digest, truth: bytes, net: Net, ev: Event, f: nat)
    requires WellFormed(g) && |truth| == g.total && Orderly(g, truth, net) && Possible(g, net, ev)
    requires f < |Happen(g, H, net, ev).ends| && Other(f) < |Happen(g, H, net, ev).ends|
    requires ev != Read(f) && ev != Proceed(f) && (f < |net.ends| ==> ev != Read(Other(f)))
    ensures OrderlyEnd(g, truth, Happen(g, H, net, ev), f)
  {
    hide OrderlyNode, RepliesIn, RequestsIn, Wired, Happen, Next, Current, Sent;
    EndsAfter(g, H, net, ev);
    if f < |net.ends| {
      WiredAt(net, f);
      Effect(g, H, net, ev);
      PendingIs(g, H, net, ev, f);
      assert OrderlyEnd(g, truth, net, f);
      if ev == Hangup(f) {
        HungUpIsGone(g, H, net, f);
      }
    } else {
      OneMessage(Unchoke);
      WiredAtEnd(net);
      NewEnds(g, H, net, ev, f);
      NewEnds(g, H, net, ev, Other(f));
    }
  }

  lemma WiredAtEnd(net: Net)
    requires Wired(net)
    ensures |net.ends| % 2 == 0
  {
  }

  lemma HungUpIsGone(g: Geometry, H: bytes -> Digest, net: Net, e: nat)
    requires WellFormed(g) && Possible(g, net, Hangup(e))
    ensures PhaseAfter(g, H, net, Hangup(e)).Gone?
  {
    assert Attached(net, e);
  }

  lemma SafeStaysOrderly(g: Geometry, H: bytes -> Digest, truth: bytes, net: Net, ev: Event)
    requires WellFormed(g) && |truth| == g.total && Orderly(g, truth, net)
    requires Possible(g, net, ev) && Safe(g, H, truth, net, ev)
    ensures Orderly(g, truth, Happen(g, H, net, ev))
  {
    hide OrderlyNode, OrderlyEnd, Safe, Happen, NodeAfter, EndAfter, NodeOf;
    var net' := Happen(g, H, net, ev);
    WiringAfter(g, H, net, ev);
    EndsAfter(g, H, net, ev);
    NodeStaysOrderly(g, H, truth, net, ev);
    forall f | 0 <= f < |net'.ends| ensures OrderlyEnd(g, truth, net', f) {
      WiredAt(net', f);
      EndStaysOrderly(g, H, truth, net, ev, f);
    }
  }

  lemma DoubleRequestBreaksOrder(g: Geometry, H: bytes -> Digest, truth: bytes, net: Net, e: nat)
    requires WellFormed(g) && |truth| == g.total && Orderly(g, truth, net) && Possible(g, net, Read(e))
    requires e < |net.ends| && Other(e) < |net.ends| && Pending(net, e) != []
    requires net.ends[e].inbox[0].Unchoke? && !PhaseAt(net, e).guard.complete
    ensures !Orderly(g, truth, Happen(g, H, net, Read(e)))
  {
    hide OrderlyNode, RepliesIn, RequestsIn, Ask, Happen, Wired, Current;
    WiredAt(net, e);
    Effect(g, H, net, Read(e));
    EndsAfter(g, H, net, Read(e));
    PendingIs(g, H, net, Read(e), e);
    ReaderAsks(g, truth, net, e);
    assert PhaseAfter(g, H, net, Read(e)) == PhaseAt(net, e);
    assert !OrderlyEnd(g, truth, Happen(g, H, net, Read(e)), e);
  }

  lemma LostPieceBreaksOrder(g: Geometry, H: bytes -> Digest, truth: bytes, net: Net, e: nat)
    requires WellFormed(g) && |truth| == g.total && Orderly(g, truth, net) && Possible(g, net, Hangup(e))
    requires PhaseAt(net, e).Finished?
    ensures !Orderly(g, truth, Happen(g, H, net, Hangup(e)))
  {
    hide OrderlyEnd, Happen, Wired, Partition, Conservation, Sound, Next;
    WiredAt(net, e);
    EndsAfter(g, H, net, Hangup(e));
    var n := NodeOf(g, net, Hangup(e));
    assert OrderlyNode(g, truth, net.nodes[n]);
    DropExactly(g, H, net.nodes[n], net.ends[e].peer.value);
    assert !OrderlyNode(g, truth, Happen(g, H, net, Hangup(e)).nodes[n]);
  }

  lemma FalseMatchBreaksOrder(g: Geometry, H: bytes -> Digest, truth: bytes, net: Net, n: nat)
    requires WellFormed(g) && |truth| == g.total && Orderly(g, truth, net) && Possible(g, net, Reset(n))
    requires !NoFalseMatch(g, H, truth, net.nodes[n].disk)
    ensures !Orderly(g, truth, Happen(g, H, net, Reset(n)))
  {
    hide OrderlyEnd, Happen, Wired, Partition, Conservation, MissingBelow, ResumedBytes, CeilDiv, PieceAt;
    EndsAfter(g, H, net, Reset(n));
    var s := Happen(g, H, net, Reset(n)).nodes[n];
    assert s == Next(g, H, net.nodes[n], Restart);
    var i :| 0 <= i < |g.hashes| && H(PieceAt(g, net.nodes[n].disk, i)) == g.hashes[i]
             && !IsTrue(g, truth)(i, PieceAt(g, net.nodes[n].disk, i));
    assert s.have[i] && s.disk == net.nodes[n].disk;
    assert !OrderlyNode(g, truth, s);
  }

  // An event of an orderly network keeps it orderly if and only if it is safe.
  lemma StaysOrderlyExactly(g: Geometry, H: bytes -> Digest, truth: bytes, net: Net, ev: Event)
    requires WellFormed(g) && |truth| == g.total && Orderly(g, truth, net) && Possible(g, net, ev)
    ensures Orderly(g, truth, Happen(g, H, net, ev)) <==> Safe(g, H, truth, net, ev)
  {
    hide Orderly, Happen, Wired, NoFalseMatch;
    if Safe(g, H, truth, net, ev) {
      SafeStaysOrderly(g, H, truth, net, ev);
    } else {
      match ev
      case Read(e) =>
        WiredAt(net, e);
        DoubleRequestBreaksOrder(g, H, truth, net, e);
      case Hangup(e) => LostPieceBreaksOrder(g, H, truth, net, e);
      case Reset(n) => FalseMatchBreaksOrder(g, H, truth, net, n);
      case _ => assert false;
    }
  }

  // --- every run ---

  predicate SafeRun(g: Geometry, H: bytes -> Digest, truth: bytes, net: Net, run: seq<Event>)
    requires WellFormed(g) && |truth| == g.total && PossibleRun(g, H, net, run)
    decreases |run|
  {
    run == [] || (Safe(g, H, truth, net, run[0]) && SafeRun(g, H, truth, Happen(g, H, net, run[0]), run[1..]))
  }

  predicate AlwaysOrderly(g: Geometry, H: bytes -> Digest, truth: bytes, net: Net, run: seq<Event>)
    requires WellFormed(g) && |truth| == g.total && PossibleRun(g, H, net, run)
    decreases |run|
  {
    Orderly(g, truth, net) && (run == [] || AlwaysOrderly(g, H, truth, Happen(g, H, net, run[0]), run[1..]))
  }

  lemma {:induction false} RunStaysOrderlyExactly(g: Geometry, H: bytes -> Digest, truth: bytes, net: Net,
                                                  run: seq<Event>)
    requires WellFormed(g) && |truth| == g.total && Orderly(g, truth, net) && PossibleRun(g, H, net, run)
    ensures AlwaysOrderly(g, H, truth, net, run) <==> SafeRun(g, H, truth, net, run)
    ensures SafeRun(g, H, truth, net, run) ==> Orderly(g, truth, Outcome(g, H, net, run))
    decreases |run|
  {
    hide Orderly, Safe, Possible, Happen;
    if run != [] {
      StaysOrderlyExactly(g, H, truth, net, run[0]);
      if Safe(g, H, truth, net, run[0]) {
        RunStaysOrderlyExactly(g, H, truth, Happen(g, H, net, run[0]), run[1..]);
      } else if AlwaysOrderly(g, H, truth, net, run) {
        AlwaysBegins(g, H, truth, Happen(g, H, net, run[0]), run[1..]);
      }
    }
  }

  lemma AlwaysBegins(g: Geometry, H: bytes -> Digest, truth: bytes, net: Net, run: seq<Event>)
    requires WellFormed(g) && |truth| == g.total && PossibleRun(g, H, net, run)
    requires AlwaysOrderly(g, H, truth, net, run)
    ensures Orderly(g, truth, net)
  {
  }

  lemma StartIsOrderly(g: Geometry, H: bytes -> Digest, truth: bytes, disks: seq<bytes>)
    requires WellFormed(g) && |truth| == g.total
    requires forall d :: d in disks ==> |d| == g.total && NoFalseMatch(g, H, truth, d)
    ensures Orderly(g, truth, Start(g, H, disks))
  {
    hide NoFalseMatch, Resume, Inv, Tidy, Sound, IsTrue;
    var net := Start(g, H, disks);
    forall n | 0 <= n < |net.nodes| ensures OrderlyNode(g, truth, net.nodes[n]) {
      StartNode(g, H, truth, disks[n]);
    }
  }

  lemma StartNode(g: Geometry, H: bytes -> Digest, truth: bytes, disk: bytes)
    requires WellFormed(g) && |truth| == |disk| == g.total && NoFalseMatch(g, H, truth, disk)
    ensures OrderlyNode(g, truth, Resume(g, H, disk))
  {
    hide Inv, Tidy, Sound, IsTrue, Resume;
    ResumeSound(g, H, truth, IsTrue(g, truth), disk);
  }
}
