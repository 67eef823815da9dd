// The exchange of one client with a seeder runs to its end however it is scheduled, in spite of the doubled requests,
// and leaves the whole torrent on disk.
module Exchange {
  import opened Prelude
  import opened Geometry
  import opened Swarm
  import opened SwarmProofs
  import opened SwarmTruth
  import opened Network
  import opened NetworkOrder
  import opened Sharing
  import opened Seeding
  import opened Losses
  import P = SwarmProgress

  // A connection of a client whose two peer loops run; `e` is the client's end.
  predicate Linked(g: Geometry, truth: bytes, net: Net, base: nat, m: nat, clients: set<nat>, e: nat)
    requires WellFormed(g) && |truth| == g.total
  {
    && Star(g, truth, net, base, m, clients)
    && base <= e < |net.ends| && net.ends[e].node in clients && net.ends[e].node < |net.nodes|
    && Other(e) < |net.ends|
    && !PhaseAt(net, e).Gone? && PhaseAt(net, Other(e)).Waiting?
  }

  // The connection is the only one of the client that is alive.
  predicate Exchanging(g: Geometry, truth: bytes, net: Net, base: nat, m: nat, clients: set<nat>, e: nat)
    requires WellFormed(g) && |truth| == g.total
  {
    && Linked(g, truth, net, base, m, clients, e)
    && ClientAlone(g, net.nodes[net.ends[e].node], net.ends[e].peer)
    && ClientWaits(net.nodes[net.ends[e].node], PhaseAt(net, e), net.ends[e].inbox, Pending(net, e))
  }

  // No other peer loop of the client holds a piece, and none is being returned.
  predicate ClientAlone(g: Geometry, s: State, peer: Option<nat>)
    requires WellFormed(g)
  {
    && Shape(g, s) && Partition(g, s) && s.refunds == []
    && forall p :: 0 <= p < |s.peers| && peer != Some(p) ==> s.peers[p].Gone?
  }

  // An incomplete guard has something coming that makes it go on, and a complete one has nothing to take.
  predicate ClientWaits(s: State, ph: Phase, inbox: seq<Message>, pending: seq<Message>) {
    && (Incomplete(ph) && ph.Waiting? ==> pending != [] || Unchoke in inbox)
    && ((ph.Waiting? || ph.Written?) && ph.guard.complete ==> s.missing == [])
  }

  // Nothing is left to read or to do.
  predicate Quiet(net: Net, e: nat) {
    && e < |net.ends| && Other(e) < |net.ends|
    && PhaseAt(net, e).Waiting? && net.ends[e].inbox == [] && net.ends[Other(e)].inbox == []
  }

  // --- the measure ---

  function Weight(m: Message): nat {
    match m
    case Interested => 9
    case Unchoke => 8
    case Request(_, _, _) => 7
    case Piece(_, _, _) => 6
  }

  function PhaseWeight(ph: Phase): nat {
    if ph.Written? then 5 else if ph.Finished? then 2 else if ph.Marked? then 1 else 0
  }

  function Size(g: Geometry): int -> nat
    requires WellFormed(g)
  {
    (i: int) => if 0 <= i then SizeOr0(g, i) else 0
  }

  // What the guard has not counted of its piece.
  function Left(g: Geometry, ph: Phase): nat
    requires WellFormed(g)
  {
    if Incomplete(ph) then SaturatingSub(SizeOr0(g, ph.guard.piece), ph.guard.offset) else 0
  }

  function Work(g: Geometry, s: State, ph: Phase): nat
    requires WellFormed(g)
  {
    16 * (SumBy<int>(Size(g), s.missing) + Left(g, ph)) + 8 * |s.missing| + PhaseWeight(ph)
  }

  // What is left to do on the connection.
  function Effort(g: Geometry, net: Net, e: nat): nat
    requires WellFormed(g) && e < |net.ends| && Other(e) < |net.ends| && net.ends[e].node < |net.nodes|
  {
    Work(g, net.nodes[net.ends[e].node], PhaseAt(net, e)) + SumBy(Weight, net.ends[e].inbox)
    + SumBy(Weight, net.ends[Other(e)].inbox)
  }

  // --- one step of the client ---

  // How much work a step takes away, and what it may send.
  lemma CreditWorks(g: Geometry, H: bytes -> Digest, s: State, p: nat)
    requires WellFormed(g) && Shape(g, s) && Enabled(g, s, Credit(p)) && 0 < s.peers[p].len <= BLOCK
    requires g.pieceLength + BLOCK <= U32
    ensures var s' := Next(g, H, s, Credit(p));
            Work(g, s', s'.peers[p]) + (if Incomplete(s'.peers[p]) then 7 else 0) < Work(g, s, s.peers[p])
  {
    hide CeilDiv, SumBy, TargetSize;
    var ph := s.peers[p];
    assert ph in s.peers;
    if !ph.guard.complete {
      TargetIsPieceSize(g, ph.guard.piece);
    }
  }

  lemma MarkWorks(g: Geometry, H: bytes -> Digest, s: State, p: nat)
    requires WellFormed(g) && Enabled(g, s, Mark(p))
    ensures var s' := Next(g, H, s, Mark(p)); Work(g, s', s'.peers[p]) < Work(g, s, s.peers[p])
  {
  }

  lemma TakeWorks(g: Geometry, H: bytes -> Digest, s: State, p: nat)
    requires WellFormed(g) && Shape(g, s) && Enabled(g, s, TakeNext(p))
    ensures var s' := Next(g, H, s, TakeNext(p));
            Work(g, s', s'.peers[p]) + (if Incomplete(s'.peers[p]) then 7 else 0) < Work(g, s, s.peers[p])
  {
    hide CeilDiv;
    assert s.peers[p] in s.peers;
    if s.missing != [] {
      HeadInRange(g, s);
      HeadWeighs(Size(g), s.missing);
    }
  }

  lemma HeadWeighs(f: int -> nat, s: seq<int>)
    requires s != []
    ensures SumBy<int>(f, s) == f(s[0]) + SumBy<int>(f, s[1..])
  {
  }

  lemma FollowWorks(g: Geometry, H: bytes -> Digest, s: State, p: nat)
    requires WellFormed(g) && Shape(g, s) && p < |s.peers| && g.pieceLength + BLOCK <= U32
    requires s.peers[p].Written? || s.peers[p].Finished? || s.peers[p].Marked?
    requires s.peers[p].Written? ==> 0 < s.peers[p].len <= BLOCK
    ensures var s' := Next(g, H, s, Follow(s.peers[p], p));
            && p < |s'.peers|
            && Work(g, s', s'.peers[p]) + (if Incomplete(s'.peers[p]) && s'.peers[p].Waiting? then 7 else 0)
               < Work(g, s, s.peers[p])
            && !s'.peers[p].Written? && !s'.peers[p].Gone?
  {
    hide Work, Shape, CeilDiv, TargetSize;
    match s.peers[p]
    case Written(_, _) => CreditWorks(g, H, s, p);
    case Finished(_, _) => MarkWorks(g, H, s, p);
    case Marked(_) => TakeWorks(g, H, s, p);
    case _ =>
  }

  // Nothing but a drop returns a piece, and nothing but taking one changes the queue.
  predicate KeepsPieces(g: Geometry, s: State, s': State, p: nat)
    requires WellFormed(g)
  {
    && (Shape(g, s) && Partition(g, s) ==> Shape(g, s') && Partition(g, s'))
    && s'.refunds == s.refunds && |s'.peers| == |s.peers|
    && (forall q :: 0 <= q < |s.peers| && q != p ==> s'.peers[q] == s.peers[q])
  }

  lemma StepKeepsPieces(g: Geometry, H: bytes -> Digest, s: State, p: nat, a: Action)
    requires WellFormed(g) && Shape(g, s) && Enabled(g, s, a) && Concerns(a, p)
    requires a.Write? || a.Credit? || a.Mark? || a.TakeNext?
    requires a.Mark? ==> Harmless(g, s, a)
    ensures KeepsPieces(g, s, Next(g, H, s, a), p)
    ensures !a.TakeNext? ==> Next(g, H, s, a).missing == s.missing
  {
    hide Shape, Partition, Resume, Splice, TargetSize;
    if Partition(g, s) {
      OwnershipExactly(g, H, s, a);
    }
    NextPeers(g, H, s, a);
  }

  lemma AloneStays(g: Geometry, s: State, s': State, p: nat)
    requires WellFormed(g) && KeepsPieces(g, s, s', p)
    ensures ClientAlone(g, s, Some(p)) ==> ClientAlone(g, s', Some(p))
  {
    hide Shape, Partition;
  }

  // --- one event ---

  predicate OthersKept(net: Net, net': Net, m: nat, n: nat) {
    && |net'.nodes| == |net.nodes|
    && forall k :: 0 <= k < |net.nodes| && k != m && k != n ==> net'.nodes[k] == net.nodes[k]
  }

  // The other connections are as they were.
  predicate OtherEndsKept(net: Net, net': Net, e: nat) {
    && |net'.ends| == |net.ends|
    && (forall f :: 0 <= f < |net.ends| ==>
          net'.ends[f].node == net.ends[f].node && net'.ends[f].peer == net.ends[f].peer)
    && (forall f :: 0 <= f < |net.ends| && f != e && f != Other(e) ==>
          net'.ends[f] == net.ends[f] && PhaseAt(net', f) == PhaseAt(net, f))
  }

  // One of the events of the connection that are not about its beginning or end.
  predicate OfLink(e: nat, ev: Event) {
    ev == Read(e) || ev == Read(Other(e)) || ev == Proceed(e) || ev == Proceed(Other(e))
  }

  // What such an event keeps, and that it brings the end nearer.
  ghost predicate MovesOn(g: Geometry, H: bytes -> Digest, truth: bytes, net: Net, base: nat, m: nat, clients: set<nat>,
                          e: nat, ev: Event)
    requires WellFormed(g) && |truth| == g.total && Linked(g, truth, net, base, m, clients, e)
  {
    && Possible(g, net, ev) && InStar(g, H, truth, net, base, m, clients, ev)
    && Keeps(g, H, truth, net, base, clients, ev)
    && var net', n := Happen(g, H, net, ev), net.ends[e].node;
       && Linked(g, truth, net', base, m, clients, e)
       && Effort(g, net', e) < Effort(g, net, e)
       && OthersKept(net, net', m, n) && OtherEndsKept(net, net', e)
       && net.ends[e].peer.Some? && KeepsPieces(g, net.nodes[n], net'.nodes[n], net.ends[e].peer.value)
       && (Exchanging(g, truth, net, base, m, clients, e) ==> Exchanging(g, truth, net', base, m, clients, e))
  }

  lemma AskWeighs(g: Geometry, guard: Guard)
    ensures SumBy(Weight, Ask(g, guard)) <= if guard.complete then 0 else 7
  {
    hide GetRequestLength;
    var ms := Ask(g, guard);
    if ms != [] {
      assert ms == [ms[0]] && ms[1..] == [];
    }
  }

  lemma InboxWeighs(a: seq<Message>, b: seq<Message>)
    ensures SumBy(Weight, a + b) == SumBy(Weight, a) + SumBy(Weight, b)
    ensures a != [] ==> SumBy(Weight, a) == Weight(a[0]) + SumBy(Weight, a[1..])
  {
    SumByConcat(Weight, a, b);
  }

  lemma LinkIs(g: Geometry, truth: bytes, net: Net, base: nat, m: nat, clients: set<nat>, e: nat)
    requires WellFormed(g) && |truth| == g.total && Linked(g, truth, net, base, m, clients, e)
    ensures Wired(net) && Other(Other(e)) == e && Other(e) != e && base <= Other(e) < |net.ends|
    ensures var n := net.ends[e].node;
            && n != m && n < |net.nodes| && m < |net.nodes| && Shape(g, net.nodes[n]) && Seeder(g, truth, net.nodes[m])
            && net.ends[Other(e)].node == m && ClientEnd(g, truth, net, e) && Pending(net, Other(e)) == []
            && net.ends[e].peer.Some? && net.ends[e].peer.value < |net.nodes[n].peers|
            && net.nodes[n].peers[net.ends[e].peer.value] == PhaseAt(net, e)
    ensures PhaseAt(net, Other(e)).Waiting? && PhaseAt(net, Other(e)).guard.complete && !Ended(net, Other(e))
  {
    hide Shape, Wired, AllSettled, Seeder, ClientEnd;
    OtherIsAbove(g, truth, net, base, m, clients, e);
    assert FrameEnd(g, truth, net, m, clients, e);
    assert FrameEnd(g, truth, net, m, clients, Other(e));
    WiredAt(net, e);
    WiredAt(net, Other(e));
    SeederIsComplete(g, truth, net.nodes[m], PhaseAt(net, Other(e)));
  }

  lemma SeederIsComplete(g: Geometry, truth: bytes, s: State, ph: Phase)
    requires WellFormed(g) && |truth| == g.total && Seeder(g, truth, s) && ph in s.peers && ph.Waiting?
    ensures ph.guard.complete
  {
    hide Shape, P.AllMarked;
  }

  // What has to be shown of an event for it to bring the exchange on.
  lemma MovesOnIf(g: Geometry, H: bytes -> Digest, truth: bytes, net: Net, base: nat, m: nat, clients: set<nat>,
                  e: nat, ev: Event)
    requires Truth(g, H, truth) && Linked(g, truth, net, base, m, clients, e) && Possible(g, net, ev)
    requires ev == Read(e) || ev == Read(Other(e)) || ev == Proceed(e)
    requires net.ends[e].peer.Some? && net.ends[e].node < |Happen(g, H, net, ev).nodes|
    requires e < |Happen(g, H, net, ev).ends| && Other(e) < |Happen(g, H, net, ev).ends|
    requires Happen(g, H, net, ev).ends[e].node == net.ends[e].node
    requires var net', n := Happen(g, H, net, ev), net.ends[e].node;
             && !PhaseAt(net', e).Gone? && KeepsPieces(g, net.nodes[n], net'.nodes[n], net.ends[e].peer.value)
             && (ClientWaits(net.nodes[n], PhaseAt(net, e), net.ends[e].inbox, Pending(net, e)) ==>
                   ClientWaits(net'.nodes[n], PhaseAt(net', e), net'.ends[e].inbox, Pending(net', e)))
             && Effort(g, net', e) < Effort(g, net, e)
    ensures MovesOn(g, H, truth, net, base, m, clients, e, ev)
  {
    hide Happen, Star, ClientWaits, ClientAlone, Effort, Pending, Truth, Keeps, Seeder, ClientEnd, Shape, Partition,
      Wired;
    TruthHolds(g, H, truth);
    LinkIs(g, truth, net, base, m, clients, e);
    var net', n, p := Happen(g, H, net, ev), net.ends[e].node, net.ends[e].peer.value;
    StarStays(g, H, truth, net, base, m, clients, ev);
    LinkStays(g, H, truth, net, base, m, clients, e, ev);
    AloneStays(g, net.nodes[n], net'.nodes[n], p);
  }

  // What the event leaves alone.
  lemma LinkStays(g: Geometry, H: bytes -> Digest, truth: bytes, net: Net, base: nat, m: nat, clients: set<nat>,
                  e: nat, ev: Event)
    requires WellFormed(g) && |truth| == g.total && Linked(g, truth, net, base, m, clients, e) && Possible(g, net, ev)
    requires ev == Read(e) || ev == Read(Other(e)) || ev == Proceed(e)
    ensures var net' := Happen(g, H, net, ev);
            OthersKept(net, net', m, net.ends[e].node) && OtherEndsKept(net, net', e)
            && PhaseAt(net', Other(e)).Waiting?
  {
    hide Happen, Star, Seeder, RepliesIn, RequestsIn, Next, Wired, ClientEnd, PhaseAfter, NodeAfter, Sent, Shape,
      PhaseAt;
    LinkIs(g, truth, net, base, m, clients, e);
    Effect(g, H, net, ev);
    EndsAfter(g, H, net, ev);
    KeptEnds(g, H, net, ev, e);
    if ev == Read(Other(e)) {
      ServerReadsOn(g, H, net, Other(e));
    }
  }

  lemma KeptEnds(g: Geometry, H: bytes -> Digest, net: Net, ev: Event, e: nat)
    requires WellFormed(g) && Possible(g, net, ev) && Other(Other(e)) == e
    requires ev == Read(e) || ev == Read(Other(e)) || ev == Proceed(e)
    ensures forall f :: 0 <= f < |net.ends| ==>
              var end := EndAfter(g, H, net, ev, f);
              end.node == net.ends[f].node && end.peer == net.ends[f].peer
              && (f != e && f != Other(e) ==> end == net.ends[f])
  {
    hide Sent, Wired;
  }

  lemma ServerReadsOn(g: Geometry, H: bytes -> Digest, net: Net, f: nat)
    requires WellFormed(g) && Possible(g, net, Read(f)) && Other(f) < |net.ends| && f < |net.ends|
    requires Pending(net, f) == []
    ensures PhaseAfter(g, H, net, Read(f)) == PhaseAt(net, f)
  {
    hide RepliesIn, RequestsIn;
    HeadOf(net.ends[f].inbox);
    ReadsTo(g, H, net, f);
  }

  lemma ProceedMovesOn(g: Geometry, H: bytes -> Digest, truth: bytes, net: Net, base: nat, m: nat, clients: set<nat>,
                       e: nat)
    requires Truth(g, H, truth) && Linked(g, truth, net, base, m, clients, e) && g.pieceLength + BLOCK <= U32
    requires !PhaseAt(net, e).Waiting?
    ensures MovesOn(g, H, truth, net, base, m, clients, e, Proceed(e))
  {
    hide Happen, Star, ClientEnd, Seeder, Shape, Partition, RepliesIn, RequestsIn, Next, Work, Truth, Wired, Ask,
      Follow, PhaseAfter;
    TruthHolds(g, H, truth);
    LinkIs(g, truth, net, base, m, clients, e);
    var ev, net', n := Proceed(e), Happen(g, H, net, Proceed(e)), net.ends[e].node;
    var s, p, ph := net.nodes[n], net.ends[e].peer.value, PhaseAt(net, e);
    Effect(g, H, net, ev);
    EndsAfter(g, H, net, ev);
    KeptEnds(g, H, net, ev, e);
    ProceedIsHarmless(g, truth, net, e);
    FollowIs(ph, p);
    StepKeepsPieces(g, H, s, p, Follow(ph, p));
    FollowWorks(g, H, s, p);
    PendingIs(g, H, net, ev, e);
    ProceededPhase(g, H, net, e);
    var ph' := PhaseAt(net', e);
    if ph'.Waiting? {
      AskWeighs(g, ph'.guard);
      ProceederAsks(g, H, net, e, n);
    }
    InboxWeighs(net.ends[Other(e)].inbox, Sent(g, H, net, ev));
    TakingEmpties(g, H, s, p, ph);
    MovesOnIf(g, H, truth, net, base, m, clients, e, ev);
  }

  lemma ProceededPhase(g: Geometry, H: bytes -> Digest, net: Net, e: nat)
    requires WellFormed(g) && Possible(g, net, Proceed(e)) && net.ends[e].peer.Some?
    requires net.ends[e].node < |net.nodes| && net.ends[e].peer.value < |net.nodes[net.ends[e].node].peers|
    ensures var s, p := net.nodes[net.ends[e].node], net.ends[e].peer.value;
            var s' := Next(g, H, s, Follow(PhaseAt(net, e), p));
            && s'.peers[p] == PhaseAfter(g, H, net, Proceed(e)) && NodeAfter(g, H, net, Proceed(e)) == s'
            && Sent(g, H, net, Proceed(e)) == Resumed(g, s'.peers[p])
  {
    hide Resumed, Wired, TargetSize, CeilDiv;
    NextPeers(g, H, net.nodes[net.ends[e].node], Follow(PhaseAt(net, e), net.ends[e].peer.value));
    NodesGrow(g, H, net, Proceed(e));
  }

  lemma FollowIs(ph: Phase, p: nat)
    requires ph.Written? || ph.Finished? || ph.Marked?
    ensures var a := Follow(ph, p);
            Concerns(a, p) && !a.Write? && (a.Credit? || a.Mark? || a.TakeNext?) && (a.Mark? <==> ph.Finished?)
            && (a.TakeNext? <==> ph.Marked?)
  {
  }

  lemma ProceedIsHarmless(g: Geometry, truth: bytes, net: Net, e: nat)
    requires WellFormed(g) && Possible(g, net, Proceed(e)) && Other(e) < |net.ends| && net.ends[e].node < |net.nodes|
    requires ClientEnd(g, truth, net, e) && net.ends[e].peer.Some?
    ensures PhaseAt(net, e).Finished? ==>
              var a := Mark(net.ends[e].peer.value);
              Enabled(g, net.nodes[net.ends[e].node], a) && Harmless(g, net.nodes[net.ends[e].node], a)
    ensures PhaseAt(net, e).Written? ==> 0 < PhaseAt(net, e).len <= BLOCK
  {
    hide WellPlaced, Wired, Pending;
  }

  lemma ProceederAsks(g: Geometry, H: bytes -> Digest, net: Net, e: nat, n: nat)
    requires WellFormed(g) && Possible(g, net, Proceed(e)) && net.ends[e].node == n && n < |net.nodes|
    requires Shape(g, net.nodes[n]) && PhaseAfter(g, H, net, Proceed(e)).Waiting?
    ensures !PhaseAfter(g, H, net, Proceed(e)).guard.complete ==> Sent(g, H, net, Proceed(e)) != []
  {
    hide Shape, Next, Ask, Follow, Wired;
    WiredAt(net, e);
    StepKeepsShape(g, H, net.nodes[n], StepOf(g, net, Proceed(e)).value);
    var ph, s' := PhaseAfter(g, H, net, Proceed(e)), NodeAfter(g, H, net, Proceed(e));
    assert ph in s'.peers;
    if !ph.guard.complete {
      AskIs(g, s', ph);
    }
  }

  // A guard that waits complete after a step had nothing to take.
  lemma TakingEmpties(g: Geometry, H: bytes -> Digest, s: State, p: nat, ph: Phase)
    requires WellFormed(g) && Shape(g, s) && p < |s.peers| && s.peers[p] == ph
    requires ph.Written? || ph.Finished? || ph.Marked?
    ensures var s' := Next(g, H, s, Follow(ph, p));
            (ph.Written? && ph.guard.complete ==> s.missing == []) ==>
              p < |s'.peers| && (s'.peers[p].Waiting? && s'.peers[p].guard.complete ==> s'.missing == [])
  {
    hide TargetSize, CeilDiv, Shape;
  }

  lemma WeighsNothing()
    ensures SumBy(Weight, []) == 0
  {
  }

  lemma WeighsOne(m: Message)
    ensures SumBy(Weight, [m]) == Weight(m)
  {
    assert [m][1..] == [];
  }

  lemma ClientReadsNoRequest(g: Geometry, truth: bytes, net: Net, base: nat, m: nat, clients: set<nat>, e: nat)
    requires WellFormed(g) && |truth| == g.total && Linked(g, truth, net, base, m, clients, e)
    ensures net.ends[e].inbox != [] ==> !net.ends[e].inbox[0].Request?
    ensures net.ends[Other(e)].inbox != [] ==> !net.ends[Other(e)].inbox[0].Piece?
  {
    hide Seeder, RepliesIn, RequestsIn, ClientEnd, AllSettled, Frame, Shape;
    LinkIs(g, truth, net, base, m, clients, e);
    if net.ends[e].inbox != [] {
      HeadOf(net.ends[e].inbox);
    }
    if net.ends[Other(e)].inbox != [] {
      HeadOf(net.ends[Other(e)].inbox);
    }
  }

  // Writing a block takes no work away, but the message is gone.
  lemma WriteWorks(g: Geometry, H: bytes -> Digest, truth: bytes, net: Net, e: nat, n: nat)
    requires WellFormed(g) && Possible(g, net, Read(e)) && net.ends[e].node == n && n < |net.nodes|
    requires net.ends[e].inbox[0].Piece? && WellPlaced(g, truth, net.ends[e].inbox[0])
    requires net.ends[e].peer.Some? && net.ends[e].peer.value < |net.nodes[n].peers|
    ensures var ph, ph', s' := PhaseAt(net, e), PhaseAfter(g, H, net, Read(e)), NodeAfter(g, H, net, Read(e));
            && ph'.Written? && ph'.len > 0 && ph'.guard == ph.guard
            && Work(g, s', ph') == Work(g, net.nodes[n], ph) + 5 && s'.missing == net.nodes[n].missing
            && s' == Next(g, H, net.nodes[n], StepOf(g, net, Read(e)).value)
            && StepOf(g, net, Read(e)).value.Write? && Concerns(StepOf(g, net, Read(e)).value, net.ends[e].peer.value)
  {
    hide SumBy;
    assert Attached(net, e);
  }

  lemma ReadMovesOn(g: Geometry, H: bytes -> Digest, truth: bytes, net: Net, base: nat, m: nat, clients: set<nat>,
                    e: nat)
    requires Truth(g, H, truth) && Linked(g, truth, net, base, m, clients, e)
    requires PhaseAt(net, e).Waiting? && net.ends[e].inbox != []
    ensures MovesOn(g, H, truth, net, base, m, clients, e, Read(e))
  {
    hide Happen, Star, ClientEnd, Seeder, Shape, Partition, RepliesIn, RequestsIn, Next, Work, Truth, Wired, Ask, SumBy,
      WellPlaced, PhaseAfter;
    TruthHolds(g, H, truth);
    LinkIs(g, truth, net, base, m, clients, e);
    var ev, net', n := Read(e), Happen(g, H, net, Read(e)), net.ends[e].node;
    var msg, ph, p := net.ends[e].inbox[0], PhaseAt(net, e), net.ends[e].peer.value;
    Effect(g, H, net, ev);
    EndsAfter(g, H, net, ev);
    KeptEnds(g, H, net, ev, e);
    PendingIs(g, H, net, ev, e);
    ReadsTo(g, H, net, e);
    HeadOf(net.ends[e].inbox);
    InboxWeighs(net.ends[e].inbox, []);
    InboxWeighs(net.ends[Other(e)].inbox, Sent(g, H, net, ev));
    ClientReadsNoRequest(g, truth, net, base, m, clients, e);
    match msg {
      case Piece(_, _, _) =>
        assert Sent(g, H, net, ev) == [];
        WeighsNothing();
        assert Frame(g, truth, net, base, m, clients) by { StarIs(g, truth, net, base, m, clients); }
        ReadIsWellPlaced(g, truth, net, base, m, clients, e);
        WriteWorks(g, H, truth, net, e, n);
        StepKeepsPieces(g, H, net.nodes[n], p, StepOf(g, net, ev).value);
      case Unchoke =>
        AskWeighs(g, ph.guard);
        CompleteAsksNothing(g, ph.guard);
        if !ph.guard.complete {
          AskIs(g, net.nodes[n], ph);
        }
      case Interested => WeighsOne(Unchoke);
      case _ =>
    }
    MovesOnIf(g, H, truth, net, base, m, clients, e, ev);
  }

  lemma StarIs(g: Geometry, truth: bytes, net: Net, base: nat, m: nat, clients: set<nat>)
    requires WellFormed(g) && |truth| == g.total && Star(g, truth, net, base, m, clients)
    ensures Frame(g, truth, net, base, m, clients)
  {
  }

  lemma ReplyMovesOn(g: Geometry, H: bytes -> Digest, truth: bytes, net: Net, base: nat, m: nat, clients: set<nat>,
                     e: nat)
    requires Truth(g, H, truth) && Linked(g, truth, net, base, m, clients, e)
    requires net.ends[Other(e)].inbox != []
    ensures MovesOn(g, H, truth, net, base, m, clients, e, Read(Other(e)))
  {
    hide Happen, Star, ClientEnd, Seeder, Shape, Partition, RepliesIn, RequestsIn, Next, Work, Truth, Wired, Ask, Reply,
      SumBy, WellPlaced, PhaseAfter;
    TruthHolds(g, H, truth);
    LinkIs(g, truth, net, base, m, clients, e);
    var o := Other(e);
    var ev, net', n := Read(o), Happen(g, H, net, Read(o)), net.ends[e].node;
    var msg, sent := net.ends[o].inbox[0], Sent(g, H, net, ev);
    Effect(g, H, net, ev);
    EndsAfter(g, H, net, ev);
    KeptEnds(g, H, net, ev, e);
    PendingIs(g, H, net, ev, e);
    HeadOf(net.ends[o].inbox);
    InboxWeighs(net.ends[o].inbox, []);
    InboxWeighs(net.ends[e].inbox, sent);
    ClientReadsNoRequest(g, truth, net, base, m, clients, e);
    match msg {
      case Request(_, _, _) =>
        assert Frame(g, truth, net, base, m, clients) by { StarIs(g, truth, net, base, m, clients); }
        RequestServed(g, H, truth, net, base, m, clients, e);
        assert sent == [sent[0]] && sent[0].Piece? by { PlacedReply(g, H, net, o); }
        WeighsOne(sent[0]);
      case Unchoke =>
        CompleteAsksNothing(g, PhaseAt(net, o).guard);
        WeighsNothing();
      case Interested => WeighsOne(Unchoke);
      case _ =>
    }
    assert net'.nodes[n] == net.nodes[n];
    assert PendingAfter(g, H, net, ev, e) == [] ==> Pending(net, e) == [];
    MovesOnIf(g, H, truth, net, base, m, clients, e, ev);
  }

  lemma PlacedReply(g: Geometry, H: bytes -> Digest, net: Net, e: nat)
    requires WellFormed(g) && Possible(g, net, Read(e)) && net.ends[e].inbox[0].Request?
    ensures forall msg :: msg in Sent(g, H, net, Read(e)) ==> msg.Piece?
  {
  }

  // --- the whole exchange ---

  // Every event of the connection that is possible brings the exchange on.
  lemma EveryEventMovesOn(g: Geometry, H: bytes -> Digest, truth: bytes, net: Net, base: nat, m: nat,
                          clients: set<nat>, e: nat, ev: Event)
    requires Truth(g, H, truth) && Linked(g, truth, net, base, m, clients, e) && g.pieceLength + BLOCK <= U32
    requires OfLink(e, ev) && Possible(g, net, ev)
    ensures MovesOn(g, H, truth, net, base, m, clients, e, ev)
  {
    hide MovesOn, Star, Truth, Wired, Happen;
    TruthHolds(g, H, truth);
    match ev
    case Read(f) =>
      if f == e {
        ReadMovesOn(g, H, truth, net, base, m, clients, e);
      } else {
        ReplyMovesOn(g, H, truth, net, base, m, clients, e);
      }
    case Proceed(f) =>
      if f == e {
        ProceedMovesOn(g, H, truth, net, base, m, clients, e);
      }
  }

  // And some event is possible, until nothing is left.
  lemma QuietOrPossible(g: Geometry, truth: bytes, net: Net, base: nat, m: nat, clients: set<nat>, e: nat)
    requires WellFormed(g) && |truth| == g.total && Linked(g, truth, net, base, m, clients, e)
    ensures Quiet(net, e) <==> !exists ev :: OfLink(e, ev) && Possible(g, net, ev)
  {
    hide Star, Wired, Shape, Seeder, ClientEnd;
    LinkIs(g, truth, net, base, m, clients, e);
    if !Quiet(net, e) {
      var ev := if !PhaseAt(net, e).Waiting? then Proceed(e)
                else if net.ends[e].inbox != [] then Read(e) else Read(Other(e));
      assert OfLink(e, ev) && Possible(g, net, ev);
    }
  }

  // However the two peer loops are scheduled: each event takes at least one of what is left to do, and the exchange
  // goes on.
  lemma {:induction false} EveryScheduleEnds(g: Geometry, H: bytes -> Digest, truth: bytes, net: Net, base: nat, m: nat,
                                             clients: set<nat>, e: nat, run: seq<Event>)
    requires Truth(g, H, truth) && Exchanging(g, truth, net, base, m, clients, e) && g.pieceLength + BLOCK <= U32
    requires PossibleRun(g, H, net, run) && forall ev :: ev in run ==> OfLink(e, ev)
    ensures var after := Outcome(g, H, net, run);
            && Exchanging(g, truth, after, base, m, clients, e)
            && |run| + Effort(g, after, e) <= Effort(g, net, e)
            && OthersKept(net, after, m, net.ends[e].node) && after.ends[e].node == net.ends[e].node
    decreases |run|
  {
    hide Star, ClientAlone, ClientWaits, Effort, Truth, Possible, Happen, InStar, Keeps, OfLink;
    TruthHolds(g, H, truth);
    if run != [] {
      assert run[0] in run && forall ev :: ev in run[1..] ==> ev in run;
      EveryEventMovesOn(g, H, truth, net, base, m, clients, e, run[0]);
      EveryScheduleEnds(g, H, truth, Happen(g, H, net, run[0]), base, m, clients, e, run[1..]);
    }
  }

  // So a schedule that cannot go on has given the client the whole torrent.
  lemma StuckIsDone(g: Geometry, H: bytes -> Digest, truth: bytes, net: Net, base: nat, m: nat, clients: set<nat>,
                    e: nat, run: seq<Event>)
    requires Truth(g, H, truth) && Exchanging(g, truth, net, base, m, clients, e) && g.pieceLength + BLOCK <= U32
    requires PossibleRun(g, H, net, run) && forall ev :: ev in run ==> OfLink(e, ev)
    requires !exists ev :: OfLink(e, ev) && Possible(g, Outcome(g, H, net, run), ev)
    ensures var n, after := net.ends[e].node, Outcome(g, H, net, run);
            n < |after.nodes| && P.AllMarked(after.nodes[n]) && after.nodes[n].disk == truth
  {
    hide Star, ClientAlone, ClientWaits, Truth, Possible, PossibleRun, Outcome, Quiet, OfLink;
    TruthHolds(g, H, truth);
    EveryScheduleEnds(g, H, truth, net, base, m, clients, e, run);
    var after := Outcome(g, H, net, run);
    QuietOrPossible(g, truth, after, base, m, clients, e);
    QuietIsDone(g, truth, after, base, m, clients, e);
  }

  // A connection whose two loops run can be brought to rest, whatever else the client is doing.
  lemma {:induction false} LinkEnds(g: Geometry, H: bytes -> Digest, truth: bytes, net: Net, base: nat, m: nat,
                                    clients: set<nat>, e: nat)
    returns (run: seq<Event>)
    requires Truth(g, H, truth) && Linked(g, truth, net, base, m, clients, e) && g.pieceLength + BLOCK <= U32
    ensures PossibleRun(g, H, net, run) && forall ev :: ev in run ==> OfLink(e, ev)
    ensures var n, after := net.ends[e].node, Outcome(g, H, net, run);
            && Linked(g, truth, after, base, m, clients, e) && Quiet(after, e) && after.ends[e].node == n
            && OthersKept(net, after, m, n) && OtherEndsKept(net, after, e)
            && net.ends[e].peer.Some? && KeepsPieces(g, net.nodes[n], after.nodes[n], net.ends[e].peer.value)
            && (Exchanging(g, truth, net, base, m, clients, e) ==> Exchanging(g, truth, after, base, m, clients, e))
    decreases Effort(g, net, e)
  {
    hide Linked, Exchanging, Effort, Quiet, Possible, Happen, InStar, Keeps, OfLink, Partition, Shape, OtherEndsKept,
      KeepsPieces;
    TruthHolds(g, H, truth);
    LinkHasEnds(g, truth, net, base, m, clients, e);
    QuietOrPossible(g, truth, net, base, m, clients, e);
    if Quiet(net, e) {
      run := [];
      EndsKeepThemselves(net, e);
      PiecesKeepThemselves(g, net.nodes[net.ends[e].node], net.ends[e].peer.value);
    } else {
      var ev :| OfLink(e, ev) && Possible(g, net, ev);
      EveryEventMovesOn(g, H, truth, net, base, m, clients, e, ev);
      var next := Happen(g, H, net, ev);
      LinkHasEnds(g, truth, next, base, m, clients, e);
      KeptNode(net, next, e);
      var rest := LinkEnds(g, H, truth, next, base, m, clients, e);
      run := [ev] + rest;
      assert run[1..] == rest;
      EndsKeptOn(net, next, Outcome(g, H, next, rest), e);
      var n, p := net.ends[e].node, net.ends[e].peer.value;
      PiecesKeptOn(g, net.nodes[n], next.nodes[n], Outcome(g, H, next, rest).nodes[n], p);
    }
  }

  lemma LinkHasEnds(g: Geometry, truth: bytes, net: Net, base: nat, m: nat, clients: set<nat>, e: nat)
    requires WellFormed(g) && |truth| == g.total && Linked(g, truth, net, base, m, clients, e)
    ensures e < |net.ends| && Other(e) < |net.ends| && net.ends[e].node < |net.nodes| && net.ends[e].peer.Some?
    ensures Shape(g, net.nodes[net.ends[e].node])
  {
    hide Star;
    LinkIs(g, truth, net, base, m, clients, e);
  }

  lemma KeptNode(net: Net, next: Net, e: nat)
    requires OtherEndsKept(net, next, e) && e < |net.ends|
    ensures |next.ends| == |net.ends| && next.ends[e].node == net.ends[e].node && next.ends[e].peer == net.ends[e].peer
  {
    hide PhaseAt;
  }

  lemma PiecesKeepThemselves(g: Geometry, s: State, p: nat)
    requires WellFormed(g)
    ensures KeepsPieces(g, s, s, p)
  {
  }

  lemma PiecesKeptOn(g: Geometry, a: State, b: State, c: State, p: nat)
    requires WellFormed(g) && KeepsPieces(g, a, b, p) && KeepsPieces(g, b, c, p)
    ensures KeepsPieces(g, a, c, p)
  {
    hide Shape, Partition;
  }

  lemma EndsKeepThemselves(net: Net, e: nat)
    ensures OtherEndsKept(net, net, e)
  {
  }

  lemma EndsKeptOn(a: Net, b: Net, c: Net, e: nat)
    requires OtherEndsKept(a, b, e) && OtherEndsKept(b, c, e)
    ensures OtherEndsKept(a, c, e)
  {
    hide PhaseAt;
  }

  // When nothing is left the client has the whole torrent.
  lemma QuietIsDone(g: Geometry, truth: bytes, net: Net, base: nat, m: nat, clients: set<nat>, e: nat)
    requires WellFormed(g) && |truth| == g.total && Exchanging(g, truth, net, base, m, clients, e) && Quiet(net, e)
    ensures var n := net.ends[e].node;
            P.AllMarked(net.nodes[n]) && net.nodes[n].disk == truth && ClientAlone(g, net.nodes[n], net.ends[e].peer)
  {
    hide Star, Partition, Seeder, PieceAt, ClientEnd;
    LinkIs(g, truth, net, base, m, clients, e);
    var n, s := net.ends[e].node, net.nodes[net.ends[e].node];
    DiskSize(g, s);
    forall i | 0 <= i < |s.have| ensures s.have[i] {
      if !s.have[i] {
        RecountedInv(g, s);
        NoPieceIsLost(g, Recounted(g, s), i);
        NobodyHolds(g, net, e, n, i);
        assert false;
      }
    }
    NothingElseUnderWay(g, truth, net, base, m, clients, e);
    forall i | 0 <= i < |g.hashes| ensures PieceAt(g, s.disk, i) == PieceAt(g, truth, i) {
      MarkedIsTrueAlone(g, truth, net, base, m, clients, n, i);
    }
    PiecesDetermine(g, s.disk, truth);
  }

  lemma MarkedIsTrueAlone(g: Geometry, truth: bytes, net: Net, base: nat, m: nat, clients: set<nat>, n: nat, i: nat)
    requires WellFormed(g) && |truth| == g.total && Star(g, truth, net, base, m, clients) && n in clients
    requires n < |net.nodes| && |net.nodes[n].disk| == g.total && i < |g.hashes|
    requires i < |net.nodes[n].have| && net.nodes[n].have[i] && NothingUnderWay(net, base, n)
    ensures PieceAt(g, net.nodes[n].disk, i) == PieceAt(g, truth, i)
  {
    hide Frame, EndSettled, SettledRange, NothingUnderWay, PieceAt, PieceSize;
    assert MarkedSettled(g, truth, net, base, n);
    SettledIsTrue(g, truth, net, base, n, i);
  }

  lemma NobodyHolds(g: Geometry, net: Net, e: nat, n: nat, i: nat)
    requires WellFormed(g) && e < |net.ends| && n < |net.nodes| && net.ends[e].node == n && net.ends[e].peer.Some?
    requires net.ends[e].peer.value < |net.nodes[n].peers| && PhaseAt(net, e).Waiting? && PhaseAt(net, e).guard.complete
    requires ClientAlone(g, net.nodes[n], net.ends[e].peer)
    ensures forall ph :: ph in net.nodes[n].peers ==> !Holding(ph, i)
  {
    hide Shape, Partition;
  }

  // To the other ends of the client nothing can arrive, because their loops are over.
  lemma NothingElseUnderWay(g: Geometry, truth: bytes, net: Net, base: nat, m: nat, clients: set<nat>, e: nat)
    requires WellFormed(g) && |truth| == g.total && Exchanging(g, truth, net, base, m, clients, e) && Quiet(net, e)
    ensures NothingUnderWay(net, base, net.ends[e].node)
  {
    hide Star, Shape, Partition, Seeder, ClientEnd;
    LinkIs(g, truth, net, base, m, clients, e);
    forall f | base <= f < |net.ends| && net.ends[f].node == net.ends[e].node && Other(f) < |net.ends|
      ensures UnderWay(net, f) == []
    {
      if f != e {
        assert !SameLoop(net.ends[if e < f then e else f], net.ends[if e < f then f else e]);
        assert PhaseAt(net, f).Gone?;
      }
    }
  }
}
