// Engines that fetch from each other, with everything they send each other. Two of these engines send each other two
// Unchokes, so the first block of a connection is requested, sent, written and counted twice, and from then on the
// guard is ahead of the disk. What is kept in most events nevertheless: a byte that a guard or a mark relies on is
// true, or it is in a request or reply that can still arrive; and every reply is true.
module Sharing {
  import opened Prelude
  import opened Geometry
  import opened Swarm
  import opened SwarmProofs
  import opened SwarmTruth
  import opened Network
  import opened NetworkOrder

  // The positions in the torrent a message is about.
  predicate IsAbout(g: Geometry, m: Message, x: nat) {
    match m
    case Request(i, begin, length) => PieceStart(g, i) + begin <= x < PieceStart(g, i) + begin + length
    case Piece(i, begin, block) => PieceStart(g, i) + begin <= x < PieceStart(g, i) + begin + |block|
    case _ => false
  }

  // A request or a reply of one block at most, inside its piece.
  predicate InPlace(g: Geometry, m: Message)
    requires WellFormed(g)
  {
    match m
    case Request(i, begin, length) => i < |g.hashes| && 0 < length <= BLOCK && begin + length <= PieceSize(g, i)
    case Piece(i, begin, block) => i < |g.hashes| && 0 < |block| <= BLOCK && begin + |block| <= PieceSize(g, i)
    case _ => false
  }

  // --- what can still arrive ---

  // The peer loop of the end has run and is over.
  predicate Ended(net: Net, e: nat)
    requires e < |net.ends|
  {
    net.ends[e].peer.Some? && PhaseAt(net, e).Gone?
  }

  lemma TruthHolds(g: Geometry, H: bytes -> Digest, truth: bytes)
    requires Truth(g, H, truth)
    ensures WellFormed(g) && |truth| == g.total
  {
  }

  lemma RunningIsNotEnded(net: Net, e: nat)
    requires e < |net.ends|
    ensures !PhaseAt(net, e).Gone? ==> !Ended(net, e)
  {
  }

  // The replies that the peer loop of the end can still read, and the requests of it that can still be answered. To
  // a loop that is over nothing arrives, and a loop that is over answers nothing.
  function UnderWay(net: Net, e: nat): seq<Message>
    requires e < |net.ends| && Other(e) < |net.ends|
  {
    if PhaseAt(net, e).Gone? then []
    else
      RepliesIn(net.ends[e].inbox) + if Ended(net, Other(e)) then [] else RequestsIn(net.ends[Other(e)].inbox)
  }

  predicate Awaited(g: Geometry, net: Net, e: nat, x: nat) {
    && e < |net.ends| && Other(e) < |net.ends|
    && exists m :: m in UnderWay(net, e) && IsAbout(g, m, x)
  }

  // The byte is true, or awaited on a connection of the engine; connections below `base` are not considered.
  predicate Settled(g: Geometry, truth: bytes, net: Net, base: nat, n: nat, x: nat) {
    && n < |net.nodes| && x < |truth| && x < |net.nodes[n].disk|
    && (net.nodes[n].disk[x] == truth[x]
        || exists e :: base <= e < |net.ends| && net.ends[e].node == n && Awaited(g, net, e, x))
  }

  predicate SettledRange(g: Geometry, truth: bytes, net: Net, base: nat, n: nat, lo: int, hi: int) {
    forall x: nat :: lo <= x < hi && x < g.total ==> Settled(g, truth, net, base, n, x)
  }

  predicate MarkedSettled(g: Geometry, truth: bytes, net: Net, base: nat, n: nat)
    requires WellFormed(g) && n < |net.nodes|
  {
    forall i :: 0 <= i < |g.hashes| && i < |net.nodes[n].have| && net.nodes[n].have[i] ==>
      SettledRange(g, truth, net, base, n, PieceStart(g, i), PieceStart(g, i) + PieceSize(g, i))
  }

  // The length of the next request.
  function Needed(g: Geometry, guard: Guard): int
    requires WellFormed(g)
  {
    Min(BLOCK, SizeOr0(g, guard.piece) - guard.offset)
  }

  // The next block of the guard's piece.
  predicate NextSettled(g: Geometry, truth: bytes, net: Net, base: nat, n: nat, guard: Guard)
    requires WellFormed(g)
  {
    var at := PieceStart(g, guard.piece) + guard.offset;
    SettledRange(g, truth, net, base, n, at, at + Needed(g, guard))
  }

  // What a peer loop relies on: the bytes its guard has counted, and, if it has a block to count or `more` may come,
  // the ones it will count next.
  predicate LoopSettled(g: Geometry, truth: bytes, net: Net, base: nat, n: nat, ph: Phase, more: bool)
    requires WellFormed(g)
  {
    && (!ph.Gone? ==>
          var start := PieceStart(g, ph.guard.piece);
          SettledRange(g, truth, net, base, n, start, start + Counted(g, ph)))
    && (Incomplete(ph) && (ph.Written? || more) ==> NextSettled(g, truth, net, base, n, ph.guard))
  }

  predicate EndSettled(g: Geometry, truth: bytes, net: Net, base: nat, e: nat)
    requires WellFormed(g) && e < |net.ends|
  {
    Other(e) < |net.ends|
    && LoopSettled(g, truth, net, base, net.ends[e].node, PhaseAt(net, e), UnderWay(net, e) != [])
  }

  // All that the engines of the group rely on is true or awaited.
  predicate AllSettled(g: Geometry, truth: bytes, net: Net, base: nat, group: set<nat>)
    requires WellFormed(g)
  {
    && (forall n :: n in group ==> n < |net.nodes| && MarkedSettled(g, truth, net, base, n))
    && (forall e :: base <= e < |net.ends| && net.ends[e].node in group ==> EndSettled(g, truth, net, base, e))
  }

  // --- engines that share ---

  // A complete guard that still handles a message, or may receive one, has its piece marked.
  predicate MarksAgain(ph: Phase, pending: seq<Message>) {
    match ph
    case Waiting(guard) => guard.complete && pending != []
    case Written(guard, _) => guard.complete
    case Finished(_, held) => !held
    case Marked(_) => true
    case Gone => false
  }

  predicate LoopFits(have: seq<bool>, ph: Phase, pending: seq<Message>) {
    && (ph.Written? ==> 0 < ph.len <= BLOCK)
    && (MarksAgain(ph, pending) ==> ph.guard.piece < |have| && have[ph.guard.piece])
  }

  predicate PlacedEnd(g: Geometry, net: Net, e: nat)
    requires WellFormed(g) && e < |net.ends|
  {
    && Other(e) < |net.ends| && net.ends[e].node < |net.nodes|
    && (forall m :: m in Pending(net, e) ==> InPlace(g, m))
    && (net.ends[e].peer.None? ==> Pending(net, e) == [])
    && LoopFits(net.nodes[net.ends[e].node].have, PhaseAt(net, e), Pending(net, e))
  }

  // The engines in `group` and their connections from `base` on, which lead to each other or to any other engines.
  predicate Placed(g: Geometry, net: Net, base: nat, group: set<nat>)
    requires WellFormed(g)
  {
    && Wired(net) && base % 2 == 0 && base <= |net.ends|
    && (forall n :: n in group ==> n < |net.nodes| && Shape(g, net.nodes[n]))
    && (forall e :: base <= e < |net.ends| && net.ends[e].node in group ==> PlacedEnd(g, net, e))
  }

  // Every reply that can still be read is true.
  predicate Genuine(g: Geometry, truth: bytes, net: Net, base: nat, group: set<nat>) {
    forall e :: base <= e < |net.ends| && net.ends[e].node in group ==> GenuineEnd(g, truth, net, e)
  }

  predicate GenuineEnd(g: Geometry, truth: bytes, net: Net, e: nat)
    requires e < |net.ends|
  {
    !PhaseAt(net, e).Gone? ==> forall m :: m in RepliesIn(net.ends[e].inbox) ==> IsGenuine(g, truth, m)
  }

  predicate IsGenuine(g: Geometry, truth: bytes, m: Message) {
    m.Piece? && TrueBlock(g, truth, m.index, m.begin, m.block)
  }

  predicate Credible(g: Geometry, truth: bytes, net: Net, base: nat, group: set<nat>)
    requires WellFormed(g)
  {
    Placed(g, net, base, group) && Genuine(g, truth, net, base, group)
  }

  // What the engines of the group rely on is true or can still arrive, and nothing false can.
  predicate Faithful(g: Geometry, truth: bytes, net: Net, base: nat, group: set<nat>)
    requires WellFormed(g)
  {
    Credible(g, truth, net, base, group) && AllSettled(g, truth, net, base, group)
  }

  // The peer loops of the group that act are those of the connections from `base` on.
  predicate Within(net: Net, base: nat, group: set<nat>, ev: Event) {
    ActorOf(ev).Some? ==>
      var e := ActorOf(ev).value;
      e < |net.ends| && net.ends[e].node in group ==> base <= e
  }

  // A peer loop reads a request and does not serve it.
  predicate Refuses(g: Geometry, net: Net, ev: Event)
    requires Possible(g, net, ev)
  {
    ev.Read? && var m := net.ends[ev.e].inbox[0];
    m.Request? && Reply(g, net.nodes[NodeOf(g, net, ev)], m.index, m.begin, m.length) == []
  }

  // A peer loop serves a request of a running peer loop of the group with bytes that are not all true.
  predicate Misleads(g: Geometry, truth: bytes, net: Net, base: nat, group: set<nat>, ev: Event)
    requires Possible(g, net, ev)
  {
    ev.Read? && base <= ev.e && var m := net.ends[ev.e].inbox[0];
    m.Request? && !Refuses(g, net, ev)
    && Other(ev.e) < |net.ends| && net.ends[Other(ev.e)].node in group && !PhaseAt(net, Other(ev.e)).Gone?
    && !TrueOnDisk(g, truth, net.nodes[NodeOf(g, net, ev)].disk, m)
  }

  // The bytes that are requested are true.
  predicate TrueOnDisk(g: Geometry, truth: bytes, disk: bytes, m: Message)
    requires m.Request?
  {
    forall x :: 0 <= x < |disk| && x < |truth| && IsAbout(g, m, x) ==> disk[x] == truth[x]
  }

  // --- what a step of an engine does to its disk and its marks ---

  lemma NextDisk(g: Geometry, H: bytes -> Digest, s: State, a: Action)
    requires WellFormed(g) && Enabled(g, s, a)
    ensures |Next(g, H, s, a).disk| == |s.disk|
    ensures !a.Write? ==> Next(g, H, s, a).disk == s.disk
    ensures !a.Restart? ==>
              var have := Next(g, H, s, a).have;
              && |have| == |s.have|
              && (forall i :: 0 <= i < |have| && s.have[i] ==> have[i])
              && (forall i :: 0 <= i < |have| && have[i] && !s.have[i] ==> a.Mark? && s.peers[a.p].guard.piece == i)
  {
    hide Resume, Advance, Splice, CeilDiv;
    if a.Restart? {
      ResumeHasNoPeers(g, H, s.disk);
    }
  }

  // --- what can still arrive, after an event ---

  // In all other events peer loops end.
  predicate Ordinary(ev: Event) { !ev.Hangup? && !ev.Reset? }

  // What a peer loop reads it answers, if it is a request.
  predicate Regular(g: Geometry, net: Net, ev: Event)
    requires Possible(g, net, ev)
  {
    Ordinary(ev) && !Refuses(g, net, ev)
  }

  lemma ActorLives(g: Geometry, H: bytes -> Digest, net: Net, ev: Event)
    requires WellFormed(g) && Possible(g, net, ev) && Ordinary(ev) && ActorOf(ev).Some?
    ensures !PhaseAfter(g, H, net, ev).Gone?
  {
    hide Wired, TargetSize, Splice, CeilDiv;
    WiredAt(net, ActorOf(ev).value);
  }

  lemma LivesOn(g: Geometry, H: bytes -> Digest, net: Net, ev: Event, e: nat)
    requires WellFormed(g) && Possible(g, net, ev) && Ordinary(ev) && e < |net.ends|
    ensures e < |Happen(g, H, net, ev).ends|
    ensures PhaseAt(Happen(g, H, net, ev), e).Gone? <==> PhaseAt(net, e).Gone? && ev != Begin(e)
    ensures Ended(Happen(g, H, net, ev), e) <==> Ended(net, e)
  {
    hide Happen, PhaseAt, PhaseAfter, NodeAfter, Sent, Wired;
    Effect(g, H, net, ev);
    EndsAfter(g, H, net, ev);
    if ActorOf(ev) == Some(e) {
      ActorLives(g, H, net, ev);
      ActingPhase(g, net, ev);
    }
  }

  // Who acts has a peer loop that runs, except who begins.
  lemma ActingPhase(g: Geometry, net: Net, ev: Event)
    requires Possible(g, net, ev) && Ordinary(ev) && ActorOf(ev).Some?
    ensures var e := ActorOf(ev).value;
            e < |net.ends|
            && if ev.Begin? then net.ends[e].peer.None? && PhaseAt(net, e).Gone?
               else net.ends[e].peer.Some? && !PhaseAt(net, e).Gone?
  {
    hide Wired;
  }

  lemma UnderWayAfter(g: Geometry, H: bytes -> Digest, net: Net, ev: Event, e: nat)
    requires WellFormed(g) && Possible(g, net, ev) && Ordinary(ev)
    requires e < |net.ends| && Other(e) < |net.ends| && !PhaseAt(net, e).Gone?
    ensures Other(e) < |Happen(g, H, net, ev).ends| && e < |Happen(g, H, net, ev).ends|
    ensures var replies, requests := RepliesIn(net.ends[e].inbox), RequestsIn(net.ends[Other(e)].inbox);
            var over := Ended(net, Other(e));
            UnderWay(Happen(g, H, net, ev), e) ==
              if ev == Read(e) && net.ends[e].inbox[0].Piece? then replies[1..] + (if over then [] else requests)
              else if ev == Read(Other(e)) && net.ends[Other(e)].inbox[0].Request? then
                replies + Sent(g, H, net, ev) + requests[1..]
              else if ev == Proceed(e) || (ev == Read(e) && net.ends[e].inbox[0].Unchoke?) then
                replies + (if over then [] else requests + Sent(g, H, net, ev))
              else replies + (if over then [] else requests)
  {
    hide Sent, NodeOf, Happen, Wired, RepliesIn, RequestsIn, EndAfter, PhaseAt, UnderWay, Ended;
    EndsAfter(g, H, net, ev);
    UnderWayIs(g, H, net, ev, e);
    RepliesAfter(g, H, net, ev, e);
    RequestsAfter(g, H, net, ev, Other(e));
    if ev == Read(e) {
      HeadOf(net.ends[e].inbox);
    }
    if ev == Read(Other(e)) {
      HeadOf(net.ends[Other(e)].inbox);
      ActingPhase(g, net, ev);
      RunningIsNotEnded(net, Other(e));
    }
  }

  lemma UnderWayIs(g: Geometry, H: bytes -> Digest, net: Net, ev: Event, e: nat)
    requires WellFormed(g) && Possible(g, net, ev) && Ordinary(ev)
    requires e < |net.ends| && Other(e) < |net.ends| && !PhaseAt(net, e).Gone?
    ensures var net' := Happen(g, H, net, ev);
            && Other(e) < |net'.ends| && e < |net'.ends|
            && UnderWay(net', e) == RepliesIn(net'.ends[e].inbox)
                                    + if Ended(net, Other(e)) then [] else RequestsIn(net'.ends[Other(e)].inbox)
  {
    hide Happen, Wired, RepliesIn, RequestsIn, PhaseAt;
    LivesOn(g, H, net, ev, e);
    LivesOn(g, H, net, ev, Other(e));
  }

  // What is under way is pending.
  lemma UnderWayIsPending(net: Net, e: nat)
    requires e < |net.ends| && Other(e) < |net.ends|
    ensures forall m :: m in UnderWay(net, e) ==> m in Pending(net, e)
    ensures Pending(net, e) == [] ==> UnderWay(net, e) == []
  {
  }

  // --- what is settled stays settled in ordinary events ---

  lemma TrueStays(g: Geometry, H: bytes -> Digest, truth: bytes, net: Net, base: nat, group: set<nat>, ev: Event,
                  n: nat, x: nat)
    requires WellFormed(g) && |truth| == g.total && Credible(g, truth, net, base, group)
    requires Possible(g, net, ev) && Within(net, base, group, ev)
    requires n in group && x < g.total && net.nodes[n].disk[x] == truth[x]
    ensures var net' := Happen(g, H, net, ev);
            n < |net'.nodes| && x < |net'.nodes[n].disk| && net'.nodes[n].disk[x] == truth[x]
  {
    hide Happen, Pending, Next, Wired, Shape, Splice, RepliesIn, RequestsIn, PieceSize, PlacedEnd;
    EndsAfter(g, H, net, ev);
    assert |net.nodes[n].disk| == g.total by { DiskSize(g, net.nodes[n]); }
    if NodeOf(g, net, ev) == n && StepOf(g, net, ev).Some? {
      var a := StepOf(g, net, ev).value;
      NextDisk(g, H, net.nodes[n], a);
      if a.Write? {
        ReadIsGenuine(g, truth, net, base, group, ev.e);
        WrittenByte(g, H, truth, net.nodes[n], a, x);
      }
    }
  }

  lemma DiskSize(g: Geometry, s: State)
    requires WellFormed(g) && Shape(g, s)
    ensures |s.disk| == g.total && |s.have| == |g.hashes|
  {
  }

  lemma WrittenByte(g: Geometry, H: bytes -> Digest, truth: bytes, s: State, a: Action, x: nat)
    requires WellFormed(g) && |truth| == |s.disk| == g.total && Enabled(g, s, a) && a.Write? && x < g.total
    requires TrueBlock(g, truth, a.index, a.begin, a.block)
    ensures |Next(g, H, s, a).disk| == g.total
    ensures s.disk[x] == truth[x] || IsAbout(g, Piece(a.index, a.begin, a.block), x) ==>
              Next(g, H, s, a).disk[x] == truth[x]
  {
    hide Splice;
    SpliceAt(s.disk, PieceStart(g, a.index) + a.begin, a.block, x);
  }

  lemma ReadIsInPlace(g: Geometry, net: Net, base: nat, group: set<nat>, e: nat)
    requires WellFormed(g) && Placed(g, net, base, group) && Possible(g, net, Read(e))
    requires base <= e && net.ends[e].node in group && net.ends[e].inbox[0].Piece?
    ensures InPlace(g, net.ends[e].inbox[0])
    ensures Other(e) < |net.ends| && net.ends[e].inbox[0] in Pending(net, e)
  {
    hide RepliesIn, RequestsIn, InPlace, Wired, LoopFits;
    assert PlacedEnd(g, net, e);
    HeadOf(net.ends[e].inbox);
    assert net.ends[e].inbox[0] in RepliesIn(net.ends[e].inbox);
  }

  lemma ReadIsGenuine(g: Geometry, truth: bytes, net: Net, base: nat, group: set<nat>, e: nat)
    requires WellFormed(g) && Genuine(g, truth, net, base, group) && Possible(g, net, Read(e))
    requires base <= e && net.ends[e].node in group && net.ends[e].inbox[0].Piece?
    ensures IsGenuine(g, truth, net.ends[e].inbox[0])
  {
    hide RepliesIn, Wired, IsGenuine;
    assert GenuineEnd(g, truth, net, e);
    HeadOf(net.ends[e].inbox);
    assert net.ends[e].inbox[0] in RepliesIn(net.ends[e].inbox);
  }

  // A reply is about what was requested.
  lemma RequestAnswered(g: Geometry, H: bytes -> Digest, net: Net, base: nat, group: set<nat>, e: nat)
    requires WellFormed(g) && Placed(g, net, base, group)
    requires base <= e < |net.ends| && net.ends[e].node in group && Possible(g, net, Read(Other(e)))
    requires net.ends[Other(e)].inbox[0].Request?
    ensures Other(e) < |net.ends| && InPlace(g, net.ends[Other(e)].inbox[0])
    ensures var request, sent := net.ends[Other(e)].inbox[0], Sent(g, H, net, Read(Other(e)));
            && (sent == [] <==> Refuses(g, net, Read(Other(e)))) && |sent| <= 1
            && (sent != [] ==> InPlace(g, sent[0]) && forall x :: IsAbout(g, request, x) <==> IsAbout(g, sent[0], x))
  {
    hide RepliesIn, RequestsIn, Wired, PhaseAt, LoopFits, PieceSize;
    assert PlacedEnd(g, net, e);
    HeadOf(net.ends[Other(e)].inbox);
    var request := net.ends[Other(e)].inbox[0];
    assert request in RequestsIn(net.ends[Other(e)].inbox);
    assert request in Pending(net, e);
  }

  lemma AwaitedStays(g: Geometry, H: bytes -> Digest, truth: bytes, net: Net, base: nat, group: set<nat>, ev: Event,
                     e: nat, x: nat)
    requires WellFormed(g) && |truth| == g.total && Credible(g, truth, net, base, group)
    requires Possible(g, net, ev) && Regular(g, net, ev)
    requires base <= e < |net.ends| && net.ends[e].node in group && Awaited(g, net, e, x) && x < g.total
    ensures var net', n := Happen(g, H, net, ev), net.ends[e].node;
            || Awaited(g, net', e, x)
            || (n < |net'.nodes| && x < |net'.nodes[n].disk| && net'.nodes[n].disk[x] == truth[x])
  {
    hide Happen, Next, Wired, Shape, RepliesIn, RequestsIn, PieceSize, Sent, PlacedEnd, IsAbout, TrueBlock,
      Ended, WellFormed, EndAfter;
    var n := net.ends[e].node;
    EndsAfter(g, H, net, ev);
    UnderWayAfter(g, H, net, ev, e);
    var msg :| msg in UnderWay(net, e) && IsAbout(g, msg, x);
    if ev == Read(e) && net.ends[e].inbox[0].Piece? && msg !in UnderWay(Happen(g, H, net, ev), e) {
      HeadOf(net.ends[e].inbox);
      assert msg == net.ends[e].inbox[0];
      ReadIsGenuine(g, truth, net, base, group, e);
      DiskSize(g, net.nodes[n]);
      WrittenByte(g, H, truth, net.nodes[n], StepOf(g, net, ev).value, x);
    } else if ev == Read(Other(e)) && net.ends[Other(e)].inbox[0].Request? {
      RequestAnswered(g, H, net, base, group, e);
      HeadOf(net.ends[Other(e)].inbox);
      var sent := Sent(g, H, net, ev);
      assert sent[0] in UnderWay(Happen(g, H, net, ev), e);
      assert msg == net.ends[Other(e)].inbox[0] || msg in UnderWay(Happen(g, H, net, ev), e);
    } else {
      assert msg in UnderWay(Happen(g, H, net, ev), e);
    }
  }

  lemma SettledStays(g: Geometry, H: bytes -> Digest, truth: bytes, net: Net, base: nat, group: set<nat>, ev: Event,
                     n: nat, x: nat)
    requires WellFormed(g) && |truth| == g.total && Credible(g, truth, net, base, group)
    requires Possible(g, net, ev) && Within(net, base, group, ev) && Regular(g, net, ev)
    requires n in group && x < g.total && Settled(g, truth, net, base, n, x)
    ensures Settled(g, truth, Happen(g, H, net, ev), base, n, x)
  {
    hide Happen, Next, Wired, Shape, PlacedEnd, Awaited, Within, EndAfter, NodeAfter;
    EndsAfter(g, H, net, ev);
    if net.nodes[n].disk[x] == truth[x] {
      TrueStays(g, H, truth, net, base, group, ev, n, x);
    } else {
      var e :| base <= e < |net.ends| && net.ends[e].node == n && Awaited(g, net, e, x);
      NodeDisk(g, H, net, base, group, ev, n);
      AwaitedStays(g, H, truth, net, base, group, ev, e, x);
      assert Happen(g, H, net, ev).ends[e] == EndAfter(g, H, net, ev, e);
      SameNode(g, H, net, ev, e);
    }
  }

  lemma SameNode(g: Geometry, H: bytes -> Digest, net: Net, ev: Event, e: nat)
    requires WellFormed(g) && Possible(g, net, ev) && e < |net.ends|
    ensures EndAfter(g, H, net, ev, e).node == net.ends[e].node
  {
  }

  lemma NodeDisk(g: Geometry, H: bytes -> Digest, net: Net, base: nat, group: set<nat>, ev: Event, n: nat)
    requires WellFormed(g) && Placed(g, net, base, group)
    requires Possible(g, net, ev) && n in group
    ensures n < |Happen(g, H, net, ev).nodes| && |Happen(g, H, net, ev).nodes[n].disk| == g.total
  {
    hide Happen, Next, Wired, PlacedEnd;
    EndsAfter(g, H, net, ev);
    DiskSize(g, net.nodes[n]);
    if NodeOf(g, net, ev) == n && StepOf(g, net, ev).Some? {
      NextDisk(g, H, net.nodes[n], StepOf(g, net, ev).value);
    }
  }

  lemma RangeStays(g: Geometry, H: bytes -> Digest, truth: bytes, net: Net, base: nat, group: set<nat>, ev: Event,
                   n: nat, lo: int, hi: int)
    requires WellFormed(g) && |truth| == g.total && Credible(g, truth, net, base, group)
    requires Possible(g, net, ev) && Within(net, base, group, ev) && Regular(g, net, ev)
    requires n in group && SettledRange(g, truth, net, base, n, lo, hi)
    ensures SettledRange(g, truth, Happen(g, H, net, ev), base, n, lo, hi)
  {
    hide Happen, Settled, Credible, Within, Regular;
    forall x: nat | lo <= x < hi && x < g.total ensures Settled(g, truth, Happen(g, H, net, ev), base, n, x) {
      SettledStays(g, H, truth, net, base, group, ev, n, x);
    }
  }

  // --- the engines ---

  lemma ShapeStays(g: Geometry, H: bytes -> Digest, net: Net, base: nat, group: set<nat>, ev: Event, n: nat)
    requires WellFormed(g) && Placed(g, net, base, group)
    requires Possible(g, net, ev) && n in group
    ensures n < |Happen(g, H, net, ev).nodes| && Shape(g, Happen(g, H, net, ev).nodes[n])
  {
    hide Happen, Next, Wired, PlacedEnd, Shape;
    EndsAfter(g, H, net, ev);
    if NodeOf(g, net, ev) == n && StepOf(g, net, ev).Some? {
      StepKeepsShape(g, H, net.nodes[n], StepOf(g, net, ev).value);
    }
  }

  lemma MarksGrow(g: Geometry, H: bytes -> Digest, net: Net, base: nat, group: set<nat>, ev: Event, n: nat)
    requires WellFormed(g) && Placed(g, net, base, group)
    requires Possible(g, net, ev) && n in group && ev != Reset(n)
    ensures n < |net.nodes| == |Happen(g, H, net, ev).nodes|
    ensures var have, have' := net.nodes[n].have, Happen(g, H, net, ev).nodes[n].have;
            |have'| == |have| && forall i :: 0 <= i < |have| && have[i] ==> have'[i]
  {
    hide Happen, Next, Wired, PlacedEnd, Shape;
    EndsAfter(g, H, net, ev);
    if NodeOf(g, net, ev) == n && StepOf(g, net, ev).Some? {
      NextDisk(g, H, net.nodes[n], StepOf(g, net, ev).value);
    }
  }

  // --- the frame stays in every event ---

  // The messages under way for an end, and that none are before its peer loop starts.
  lemma PendingStaysPlaced(g: Geometry, H: bytes -> Digest, net: Net, base: nat, group: set<nat>, ev: Event, e: nat)
    requires WellFormed(g) && Placed(g, net, base, group)
    requires Possible(g, net, ev) && base <= e < |net.ends| && net.ends[e].node in group
    ensures Other(e) < |Happen(g, H, net, ev).ends| && e < |Happen(g, H, net, ev).ends|
    ensures forall msg :: msg in Pending(Happen(g, H, net, ev), e) ==> InPlace(g, msg)
    ensures Happen(g, H, net, ev).ends[e].peer.None? ==> Pending(Happen(g, H, net, ev), e) == []
    ensures ev != Read(e) && ev != Proceed(e) && Pending(net, e) == [] ==> Pending(Happen(g, H, net, ev), e) == []
  {
    hide Happen, Next, Wired, RepliesIn, RequestsIn, InPlace, LoopFits, Sent, Shape, PhaseAt, NodeAfter, NodeOf,
      IsAbout, Refuses;
    EndsAfter(g, H, net, ev);
    assert PlacedEnd(g, net, e);
    PendingIs(g, H, net, ev, e);
    if ev == Read(Other(e)) && net.ends[Other(e)].inbox[0].Request? {
      RequestAnswered(g, H, net, base, group, e);
      HeadOf(net.ends[Other(e)].inbox);
    } else if ev == Read(e) && net.ends[e].inbox[0].Piece? {
      HeadOf(net.ends[e].inbox);
    } else if ev == Proceed(e) || (ev == Read(e) && net.ends[e].inbox[0].Unchoke?) {
      SentIsPlaced(g, H, net, base, group, ev, e);
      ActingPhase(g, net, ev);
    }
  }

  lemma PlacedAsk(g: Geometry, s: State, ph: Phase)
    requires WellFormed(g) && Shape(g, s) && ph in s.peers && ph.Waiting?
    ensures forall msg :: msg in Ask(g, ph.guard) ==> InPlace(g, msg)
  {
    CompleteAsksNothing(g, ph.guard);
    if !ph.guard.complete {
      AskIs(g, s, ph);
    }
  }

  lemma SentIsPlaced(g: Geometry, H: bytes -> Digest, net: Net, base: nat, group: set<nat>, ev: Event, e: nat)
    requires WellFormed(g) && Placed(g, net, base, group)
    requires Possible(g, net, ev) && base <= e < |net.ends| && net.ends[e].node in group
    requires ev == Proceed(e) || (ev == Read(e) && net.ends[e].inbox[0].Unchoke?)
    ensures forall msg :: msg in Sent(g, H, net, ev) ==> InPlace(g, msg)
  {
    hide Next, Wired, PlacedEnd, Ask, Shape, Follow, InPlace;
    WiredAt(net, e);
    var n := net.ends[e].node;
    if ev.Read? {
      PlacedAsk(g, net.nodes[n], PhaseAt(net, e));
    } else {
      StepKeepsShape(g, H, net.nodes[n], StepOf(g, net, ev).value);
      var ph := PhaseAfter(g, H, net, ev);
      if ph.Waiting? {
        assert ph in NodeAfter(g, H, net, ev).peers;
        PlacedAsk(g, NodeAfter(g, H, net, ev), ph);
      }
    }
  }

  // The phase a peer loop goes on to.
  lemma ProceedsTo(g: Geometry, H: bytes -> Digest, net: Net, e: nat)
    requires WellFormed(g) && Possible(g, net, Proceed(e)) && net.ends[e].node < |net.nodes|
    ensures var s := net.nodes[net.ends[e].node];
            PhaseAfter(g, H, net, Proceed(e)) ==
              match PhaseAt(net, e)
              case Written(guard, len) => Advance(g, guard, len)
              case Finished(guard, _) => Marked(guard)
              case Marked(guard) => Waiting(TakePiece(s.missing, guard).1)
              case _ => PhaseAfter(g, H, net, Proceed(e))
  {
    hide Advance;
    assert Attached(net, e);
  }

  // The same piece, and nothing counted for a guard that was complete.
  lemma AdvancedIs(g: Geometry, s: State, ph: Phase)
    requires WellFormed(g) && Shape(g, s) && ph in s.peers && ph.Written?
    ensures var ph' := Advance(g, ph.guard, ph.len);
            && (ph'.Waiting? || ph'.Finished?) && ph'.guard.piece == ph.guard.piece
            && (ph'.Waiting? ==> ph'.guard.complete == ph.guard.complete)
            && (ph'.Finished? ==> ph'.held == !ph.guard.complete)
            && (ph.guard.complete ==> Counted(g, ph') == 0)
            && (!ph.guard.complete ==> ph.guard.piece < |g.hashes| && ph.guard.offset < PieceSize(g, ph.guard.piece))
  {
    hide TargetSize;
  }

  lemma MarkedIsComplete(g: Geometry, s: State, ph: Phase)
    requires WellFormed(g) && Shape(g, s) && ph in s.peers
    ensures ph.Marked? ==> ph.guard.complete
  {
  }

  lemma MarksFinished(g: Geometry, H: bytes -> Digest, net: Net, e: nat)
    requires WellFormed(g) && Possible(g, net, Proceed(e)) && PhaseAt(net, e).Finished?
    requires net.ends[e].node < |net.nodes| && Shape(g, net.nodes[net.ends[e].node])
    ensures var n, i, net' := net.ends[e].node, PhaseAt(net, e).guard.piece, Happen(g, H, net, Proceed(e));
            && n < |net'.nodes| && |net'.nodes[n].have| == |net.nodes[n].have|
            && (PhaseAt(net, e).held ==> i < |net'.nodes[n].have|)
            && (i < |net'.nodes[n].have| ==> net'.nodes[n].have[i])
  {
    hide Happen;
    EndsAfter(g, H, net, Proceed(e));
    assert Attached(net, e);
    assert PhaseAt(net, e) in net.nodes[net.ends[e].node].peers;
  }

  // A peer loop that does not act.
  lemma BystanderFits(g: Geometry, H: bytes -> Digest, net: Net, base: nat, group: set<nat>, ev: Event, e: nat)
    requires WellFormed(g) && Placed(g, net, base, group)
    requires Possible(g, net, ev) && base <= e < |net.ends| && net.ends[e].node in group && ActorOf(ev) != Some(e)
    ensures FitsNow(g, H, net, ev, e)
  {
    hide Happen, Next, Wired, InPlace, Pending;
    Effect(g, H, net, ev);
    assert PlacedEnd(g, net, e);
    PendingStaysPlaced(g, H, net, base, group, ev, e);
    if ev != Reset(net.ends[e].node) {
      MarksGrow(g, H, net, base, group, ev, net.ends[e].node);
    } else {
      EndsAfter(g, H, net, ev);
    }
  }

  predicate FitsNow(g: Geometry, H: bytes -> Digest, net: Net, ev: Event, e: nat)
    requires WellFormed(g) && Possible(g, net, ev)
  {
    var net' := Happen(g, H, net, ev);
    && e < |net.ends| && e < |net'.ends| && Other(e) < |net'.ends| && net.ends[e].node < |net'.nodes|
    && LoopFits(net'.nodes[net.ends[e].node].have, PhaseAt(net', e), Pending(net', e))
  }

  lemma ReaderFits(g: Geometry, H: bytes -> Digest, net: Net, base: nat, group: set<nat>, e: nat)
    requires WellFormed(g) && Placed(g, net, base, group)
    requires Possible(g, net, Read(e)) && base <= e && net.ends[e].node in group
    ensures FitsNow(g, H, net, Read(e), e)
  {
    hide Happen, Next, Wired, RepliesIn, RequestsIn, Ask;
    Effect(g, H, net, Read(e));
    assert PlacedEnd(g, net, e);
    PendingStaysPlaced(g, H, net, base, group, Read(e), e);
    MarksGrow(g, H, net, base, group, Read(e), net.ends[e].node);
    PendingIs(g, H, net, Read(e), e);
    ReadsTo(g, H, net, e);
    CompleteAsksNothing(g, PhaseAt(net, e).guard);
    if net.ends[e].inbox[0].Piece? {
      ReadIsInPlace(g, net, base, group, e);
    }
  }

  lemma ReadsTo(g: Geometry, H: bytes -> Digest, net: Net, e: nat)
    requires WellFormed(g) && Possible(g, net, Read(e)) && e < |net.ends|
    ensures var ph, msg := PhaseAt(net, e), net.ends[e].inbox[0];
            PhaseAfter(g, H, net, Read(e)) == if msg.Piece? then Written(ph.guard, |msg.block|) else ph
  {
    assert Attached(net, e);
  }

  lemma ProceederFits(g: Geometry, H: bytes -> Digest, net: Net, base: nat, group: set<nat>, e: nat)
    requires WellFormed(g) && Placed(g, net, base, group)
    requires Possible(g, net, Proceed(e)) && base <= e && net.ends[e].node in group
    ensures FitsNow(g, H, net, Proceed(e), e)
  {
    hide Happen, Next, Wired, Pending, Shape, Advance, InPlace;
    Effect(g, H, net, Proceed(e));
    assert PlacedEnd(g, net, e);
    PendingStaysPlaced(g, H, net, base, group, Proceed(e), e);
    var n, ph := net.ends[e].node, PhaseAt(net, e);
    MarksGrow(g, H, net, base, group, Proceed(e), n);
    WiredAt(net, e);
    ProceedsTo(g, H, net, e);
    MarkedIsComplete(g, net.nodes[n], ph);
    if ph.Written? {
      AdvancedIs(g, net.nodes[n], ph);
    } else if ph.Finished? {
      MarksFinished(g, H, net, e);
    }
  }

  lemma BeginnerFits(g: Geometry, H: bytes -> Digest, net: Net, base: nat, group: set<nat>, e: nat)
    requires WellFormed(g) && Placed(g, net, base, group)
    requires Possible(g, net, Begin(e)) && base <= e && net.ends[e].node in group
    ensures FitsNow(g, H, net, Begin(e), e)
  {
    hide Happen, Wired, Pending, InPlace;
    Effect(g, H, net, Begin(e));
    EndsAfter(g, H, net, Begin(e));
    assert PlacedEnd(g, net, e);
    PendingStaysPlaced(g, H, net, base, group, Begin(e), e);
  }

  lemma HangerFits(g: Geometry, H: bytes -> Digest, net: Net, base: nat, group: set<nat>, e: nat)
    requires WellFormed(g) && Placed(g, net, base, group)
    requires Possible(g, net, Hangup(e)) && base <= e && net.ends[e].node in group
    ensures FitsNow(g, H, net, Hangup(e), e)
  {
    hide Happen, Wired, Pending, InPlace, NodeAfter, PhaseAfter;
    Effect(g, H, net, Hangup(e));
    EndsAfter(g, H, net, Hangup(e));
    HungUpIsGone(g, H, net, e);
    PendingStaysPlaced(g, H, net, base, group, Hangup(e), e);
  }

  lemma LoopStaysFit(g: Geometry, H: bytes -> Digest, net: Net, base: nat, group: set<nat>, ev: Event, e: nat)
    requires WellFormed(g) && Placed(g, net, base, group)
    requires Possible(g, net, ev) && base <= e < |net.ends| && net.ends[e].node in group
    ensures FitsNow(g, H, net, ev, e)
  {
    hide Placed, FitsNow, Possible;
    if ActorOf(ev) != Some(e) {
      BystanderFits(g, H, net, base, group, ev, e);
    } else {
      match ev
      case Begin(_) => BeginnerFits(g, H, net, base, group, e);
      case Read(_) => ReaderFits(g, H, net, base, group, e);
      case Proceed(_) => ProceederFits(g, H, net, base, group, e);
      case Hangup(_) => HangerFits(g, H, net, base, group, e);
    }
  }

  lemma PlacedEndStays(g: Geometry, H: bytes -> Digest, net: Net, base: nat, group: set<nat>, ev: Event, e: nat)
    requires WellFormed(g) && Placed(g, net, base, group) && Possible(g, net, ev)
    requires base <= e < |Happen(g, H, net, ev).ends| && Happen(g, H, net, ev).ends[e].node in group
    ensures PlacedEnd(g, Happen(g, H, net, ev), e)
  {
    hide Happen, Wired, Pending, LoopFits, Shape, InPlace;
    EndsAfter(g, H, net, ev);
    if e < |net.ends| {
      SameNode(g, H, net, ev, e);
      assert PlacedEnd(g, net, e);
      PendingStaysPlaced(g, H, net, base, group, ev, e);
      LoopStaysFit(g, H, net, base, group, ev, e);
    } else {
      WiredAtEnd(net);
      NewEndIsPlaced(g, H, net, ev, e);
    }
  }

  lemma NewEndIsPlaced(g: Geometry, H: bytes -> Digest, net: Net, ev: Event, e: nat)
    requires WellFormed(g) && Possible(g, net, ev) && |net.ends| % 2 == 0
    requires |net.ends| <= e < |Happen(g, H, net, ev).ends|
    ensures PlacedEnd(g, Happen(g, H, net, ev), e) && PhaseAt(Happen(g, H, net, ev), e).Gone?
  {
    hide Happen, Wired, Pending, PhaseAt;
    var net' := Happen(g, H, net, ev);
    EndsAfter(g, H, net, ev);
    NewEnds(g, H, net, ev, e);
    OtherOfNew(|net.ends|, e);
    NewEnds(g, H, net, ev, Other(e));
    UntouchedEnd(net', e);
  }

  lemma OtherOfNew(k: nat, e: nat)
    requires k % 2 == 0 && k <= e < k + 2
    ensures Other(e) == 2 * k + 1 - e
  {
  }

  lemma UntouchedEnd(net: Net, e: nat)
    requires e < |net.ends| && Other(e) < |net.ends| && net.ends[e].inbox == [] && net.ends[Other(e)].inbox == []
    ensures Pending(net, e) == []
    ensures net.ends[e].peer.None? ==> PhaseAt(net, e).Gone?
  {
  }

  lemma PlacedBasics(g: Geometry, net: Net, base: nat, group: set<nat>)
    requires WellFormed(g) && Placed(g, net, base, group)
    ensures Wired(net) && base <= |net.ends| && |net.ends| % 2 == 0 && base % 2 == 0
    ensures forall n :: n in group ==> n < |net.nodes|
  {
    hide PlacedEnd, Shape;
  }

  // Whatever happens, connections end included.
  lemma PlacedStays(g: Geometry, H: bytes -> Digest, net: Net, base: nat, group: set<nat>, ev: Event)
    requires WellFormed(g) && Placed(g, net, base, group) && Possible(g, net, ev)
    ensures Placed(g, Happen(g, H, net, ev), base, group)
  {
    hide Happen, PlacedEnd, Shape, EndAfter, NodeAfter, NodeOf, Possible;
    WiringAfter(g, H, net, ev);
    EndsAfter(g, H, net, ev);
    forall n | n in group ensures n < |Happen(g, H, net, ev).nodes| && Shape(g, Happen(g, H, net, ev).nodes[n]) {
      ShapeStays(g, H, net, base, group, ev, n);
    }
    forall e | base <= e < |Happen(g, H, net, ev).ends| && Happen(g, H, net, ev).ends[e].node in group
      ensures PlacedEnd(g, Happen(g, H, net, ev), e)
    {
      PlacedEndStays(g, H, net, base, group, ev, e);
    }
  }

  // --- marks ---

  // What a finishing guard has counted is its whole piece.
  lemma FinishedIsSettled(g: Geometry, truth: bytes, net: Net, base: nat, e: nat)
    requires WellFormed(g) && Wired(net) && e < |net.ends| && EndSettled(g, truth, net, base, e)
    requires net.ends[e].node < |net.nodes| && Shape(g, net.nodes[net.ends[e].node])
    requires PhaseAt(net, e).Finished? && PhaseAt(net, e).held
    ensures var i := PhaseAt(net, e).guard.piece;
            && i < |g.hashes|
            && SettledRange(g, truth, net, base, net.ends[e].node, PieceStart(g, i), PieceStart(g, i) + PieceSize(g, i))
  {
    hide SettledRange, UnderWay, PieceSize;
    WiredAt(net, e);
  }

  lemma MarksStay(g: Geometry, H: bytes -> Digest, truth: bytes, net: Net, base: nat, group: set<nat>, ev: Event,
                  n: nat)
    requires WellFormed(g) && |truth| == g.total && Faithful(g, truth, net, base, group)
    requires Possible(g, net, ev) && Within(net, base, group, ev) && n in group && Regular(g, net, ev)
    ensures n < |Happen(g, H, net, ev).nodes| && MarkedSettled(g, truth, Happen(g, H, net, ev), base, n)
  {
    hide Happen, Next, Wired, PlacedEnd, Shape, SettledRange, EndSettled, Within;
    EndsAfter(g, H, net, ev);
    var net' := Happen(g, H, net, ev);
    forall i | 0 <= i < |g.hashes| && i < |net'.nodes[n].have| && net'.nodes[n].have[i]
      ensures SettledRange(g, truth, net', base, n, PieceStart(g, i), PieceStart(g, i) + PieceSize(g, i))
    {
      if !(i < |net.nodes[n].have| && net.nodes[n].have[i]) {
        NewlyMarked(g, H, truth, net, base, group, ev, n, i);
      }
      RangeStays(g, H, truth, net, base, group, ev, n, PieceStart(g, i), PieceStart(g, i) + PieceSize(g, i));
    }
  }

  lemma NewlyMarked(g: Geometry, H: bytes -> Digest, truth: bytes, net: Net, base: nat, group: set<nat>, ev: Event,
                    n: nat, i: nat)
    requires WellFormed(g) && |truth| == g.total && Faithful(g, truth, net, base, group)
    requires Possible(g, net, ev) && Within(net, base, group, ev) && n in group && ev != Reset(n)
    requires n < |Happen(g, H, net, ev).nodes| && i < |g.hashes| && i < |Happen(g, H, net, ev).nodes[n].have|
    requires Happen(g, H, net, ev).nodes[n].have[i] && !(i < |net.nodes[n].have| && net.nodes[n].have[i])
    ensures SettledRange(g, truth, net, base, n, PieceStart(g, i), PieceStart(g, i) + PieceSize(g, i))
  {
    hide Happen, Next, Wired, Shape, SettledRange, MarkedSettled, Pending, InPlace, PieceSize, EndSettled;
    EndsAfter(g, H, net, ev);
    var a := StepOf(g, net, ev).value;
    NextDisk(g, H, net.nodes[n], a);
    assert a.Mark? && ev.Proceed? && net.ends[ev.e].node == n;
    assert PlacedEnd(g, net, ev.e);
    WiredAt(net, ev.e);
    assert PhaseAt(net, ev.e).Finished? && PhaseAt(net, ev.e).guard.piece == i;
    if PhaseAt(net, ev.e).held {
      FinishedIsSettled(g, truth, net, base, ev.e);
    }
  }

  // After a reset the marked pieces are those that matched, and none matched falsely.
  lemma ResetIsSettled(g: Geometry, H: bytes -> Digest, truth: bytes, net: Net, base: nat, n: nat)
    requires WellFormed(g) && |truth| == g.total && Possible(g, net, Reset(n))
    requires NoFalseMatch(g, H, truth, net.nodes[n].disk)
    ensures n < |Happen(g, H, net, Reset(n)).nodes| && MarkedSettled(g, truth, Happen(g, H, net, Reset(n)), base, n)
  {
    hide Happen, Wired, Next, NoFalseMatch, SettledRange;
    EndsAfter(g, H, net, Reset(n));
    var net', disk := Happen(g, H, net, Reset(n)), net.nodes[n].disk;
    assert net'.nodes[n] == Next(g, H, net.nodes[n], Restart);
    ResetResumes(g, H, net.nodes[n]);
    forall i | 0 <= i < |g.hashes| && i < |net'.nodes[n].have| && net'.nodes[n].have[i]
      ensures SettledRange(g, truth, net', base, n, PieceStart(g, i), PieceStart(g, i) + PieceSize(g, i))
    {
      ResumedIsSettled(g, H, truth, net', base, n, i);
    }
  }

  lemma ResetResumes(g: Geometry, H: bytes -> Digest, s: State)
    requires WellFormed(g) && |s.disk| == g.total
    ensures var s' := Next(g, H, s, Restart); s'.disk == s.disk && s'.have == Verified(g, H, s.disk)
  {
    hide MissingBelow, ResumedBytes, Verified;
  }

  // A piece that was verified, and not falsely, is true.
  lemma ResumedIsSettled(g: Geometry, H: bytes -> Digest, truth: bytes, net: Net, base: nat, n: nat, i: nat)
    requires WellFormed(g) && |truth| == g.total && n < |net.nodes| && |net.nodes[n].disk| == g.total
    requires i < |g.hashes| && Verified(g, H, net.nodes[n].disk)[i] && NoFalseMatch(g, H, truth, net.nodes[n].disk)
    ensures SettledRange(g, truth, net, base, n, PieceStart(g, i), PieceStart(g, i) + PieceSize(g, i))
  {
    hide CeilDiv, PieceAt, PieceSize, Awaited;
    var disk := net.nodes[n].disk;
    assert IsTrue(g, truth)(i, PieceAt(g, disk, i));
    WholePrefix(g, truth, disk, i);
    forall x: nat | PieceStart(g, i) <= x < PieceStart(g, i) + PieceSize(g, i) && x < g.total
      ensures Settled(g, truth, net, base, n, x)
    {
      PrefixByte(g, truth, disk, i, PieceSize(g, i), x);
    }
  }

  lemma WholePrefix(g: Geometry, truth: bytes, disk: bytes, i: nat)
    requires WellFormed(g) && |truth| == |disk| == g.total && i < |g.hashes|
    ensures PieceAt(g, disk, i) == PieceAt(g, truth, i) <==> TruePrefix(g, truth, disk, i, PieceSize(g, i))
  {
    assert PieceAt(g, disk, i)[..PieceSize(g, i)] == PieceAt(g, disk, i);
    assert PieceAt(g, truth, i)[..PieceSize(g, i)] == PieceAt(g, truth, i);
  }

  // --- peer loops ---

  // A phase that a peer loop keeps while others act.
  lemma LoopStaysSettled(g: Geometry, H: bytes -> Digest, truth: bytes, net: Net, base: nat, group: set<nat>, ev: Event,
                         n: nat, ph: Phase, more: bool, still: bool)
    requires WellFormed(g) && |truth| == g.total && Credible(g, truth, net, base, group)
    requires Possible(g, net, ev) && Within(net, base, group, ev) && n in group && Regular(g, net, ev)
    requires LoopSettled(g, truth, net, base, n, ph, more) && (still ==> more)
    ensures LoopSettled(g, truth, Happen(g, H, net, ev), base, n, ph, still)
  {
    hide SettledRange, Happen, Credible, Regular, Within, Counted, Needed, Wired;
    if !ph.Gone? {
      var start := PieceStart(g, ph.guard.piece);
      RangeStays(g, H, truth, net, base, group, ev, n, start, start + Counted(g, ph));
      var at := start + ph.guard.offset;
      if Incomplete(ph) && (ph.Written? || still) {
        RangeStays(g, H, truth, net, base, group, ev, n, at, at + Needed(g, ph.guard));
      }
    }
  }

  // The next bytes are settled once they are requested.
  lemma AskedIsSettled(g: Geometry, truth: bytes, net: Net, base: nat, e: nat, guard: Guard)
    requires WellFormed(g) && |truth| == g.total && base <= e < |net.ends| && Other(e) < |net.ends|
    requires net.ends[e].node < |net.nodes| && |net.nodes[net.ends[e].node].disk| == g.total
    requires guard.piece < |g.hashes| && guard.offset < PieceSize(g, guard.piece)
    requires Request(guard.piece, guard.offset, Min(BLOCK, PieceSize(g, guard.piece) - guard.offset))
          in UnderWay(net, e)
    ensures NextSettled(g, truth, net, base, net.ends[e].node, guard)
  {
    hide UnderWay, PieceSize, PieceStart;
    var at := PieceStart(g, guard.piece) + guard.offset;
    var msg := Request(guard.piece, guard.offset, Min(BLOCK, PieceSize(g, guard.piece) - guard.offset));
    forall x: nat | at <= x < at + Needed(g, guard) && x < g.total
      ensures Settled(g, truth, net, base, net.ends[e].node, x)
    {
      assert IsAbout(g, msg, x);
      assert Awaited(g, net, e, x);
    }
  }

  // Counting a block of at most the block size relies on no more than what was counted and what was needed.
  lemma CountedIsSettled(g: Geometry, truth: bytes, net: Net, base: nat, n: nat, guard: Guard, len: nat)
    requires WellFormed(g) && !guard.complete && guard.piece < |g.hashes| && guard.offset < PieceSize(g, guard.piece)
    requires len <= BLOCK && NextSettled(g, truth, net, base, n, guard)
    requires SettledRange(g, truth, net, base, n, PieceStart(g, guard.piece),
                          PieceStart(g, guard.piece) + guard.offset)
    ensures var start := PieceStart(g, guard.piece);
            SettledRange(g, truth, net, base, n, start, start + Counted(g, Advance(g, guard, len)))
  {
    hide Settled, PieceStart, PieceSize, TargetSize;
    TargetIsPieceSize(g, guard.piece);
    var start := PieceStart(g, guard.piece);
    assert Counted(g, Advance(g, guard, len)) <= guard.offset + Needed(g, guard);
    forall x: nat | start <= x < start + Counted(g, Advance(g, guard, len)) && x < g.total
      ensures Settled(g, truth, net, base, n, x)
    {
      assert x < start + guard.offset || start + guard.offset <= x < start + guard.offset + Needed(g, guard);
    }
  }

  lemma NothingIsSettled(g: Geometry, truth: bytes, net: Net, base: nat, n: nat, at: nat)
    ensures SettledRange(g, truth, net, base, n, at, at + 0)
  {
  }

  lemma EndIsSettled(g: Geometry, truth: bytes, net: Net, base: nat, group: set<nat>, e: nat)
    requires WellFormed(g) && Faithful(g, truth, net, base, group)
    requires base <= e < |net.ends| && net.ends[e].node in group
    ensures PlacedEnd(g, net, e) && GenuineEnd(g, truth, net, e) && EndSettled(g, truth, net, base, e)
    ensures Other(e) < |net.ends| && net.ends[e].node < |net.nodes| && Shape(g, net.nodes[net.ends[e].node])
  {
    hide PlacedEnd, GenuineEnd, EndSettled, Shape, Wired, MarkedSettled;
    assert PlacedEnd(g, net, e);
    EndIsPlaced(g, net, e);
  }

  lemma EndIsPlaced(g: Geometry, net: Net, e: nat)
    requires WellFormed(g) && e < |net.ends| && PlacedEnd(g, net, e)
    ensures Other(e) < |net.ends| && net.ends[e].node < |net.nodes|
  {
  }

  lemma BystanderIsSettled(g: Geometry, H: bytes -> Digest, truth: bytes, net: Net, base: nat, group: set<nat>,
                           ev: Event, e: nat)
    requires WellFormed(g) && |truth| == g.total && Faithful(g, truth, net, base, group)
    requires Possible(g, net, ev) && Within(net, base, group, ev) && Regular(g, net, ev)
    requires base <= e < |net.ends| && net.ends[e].node in group && ActorOf(ev) != Some(e)
    ensures SettledNow(g, H, truth, net, base, ev, e)
  {
    hide Credible, AllSettled, Happen, Wired, LoopSettled, UnderWay, Within, Sent, PhaseAt, Shape, RepliesIn,
      RequestsIn;
    Effect(g, H, net, ev);
    EndsAfter(g, H, net, ev);
    SameNode(g, H, net, ev, e);
    EndIsSettled(g, truth, net, base, group, e);
    var n, ph, net' := net.ends[e].node, PhaseAt(net, e), Happen(g, H, net, ev);
    if !ph.Gone? {
      UnderWayAfter(g, H, net, ev, e);
      BystanderHadMore(g, H, net, ev, e);
    } else {
      assert UnderWay(net', e) == [] by { NothingForGone(net', e); }
    }
    LoopStaysSettled(g, H, truth, net, base, group, ev, n, ph, UnderWay(net, e) != [], UnderWay(net', e) != []);
  }

  lemma NothingForGone(net: Net, e: nat)
    requires e < |net.ends| && Other(e) < |net.ends|
    ensures PhaseAt(net, e).Gone? ==> UnderWay(net, e) == []
  {
  }

  lemma BystanderHadMore(g: Geometry, H: bytes -> Digest, net: Net, ev: Event, e: nat)
    requires WellFormed(g) && Possible(g, net, ev) && Ordinary(ev) && ActorOf(ev) != Some(e)
    requires e < |net.ends| && Other(e) < |net.ends| && !PhaseAt(net, e).Gone?
    requires Other(e) < |Happen(g, H, net, ev).ends| && e < |Happen(g, H, net, ev).ends|
    ensures UnderWay(Happen(g, H, net, ev), e) != [] ==> UnderWay(net, e) != []
  {
    hide Happen, Wired, Sent, RepliesIn, RequestsIn;
    UnderWayAfter(g, H, net, ev, e);
    if ev == Read(Other(e)) && net.ends[Other(e)].inbox[0].Request? {
      HeadOf(net.ends[Other(e)].inbox);
    }
  }

  predicate SettledNow(g: Geometry, H: bytes -> Digest, truth: bytes, net: Net, base: nat, ev: Event, e: nat)
    requires WellFormed(g) && Possible(g, net, ev)
  {
    && e < |net.ends| && e < |Happen(g, H, net, ev).ends|
    && EndSettled(g, truth, Happen(g, H, net, ev), base, e)
  }

  lemma BeginnerIsSettled(g: Geometry, H: bytes -> Digest, truth: bytes, net: Net, base: nat, group: set<nat>, e: nat)
    requires WellFormed(g) && |truth| == g.total && Faithful(g, truth, net, base, group)
    requires Possible(g, net, Begin(e)) && Within(net, base, group, Begin(e))
    requires base <= e && net.ends[e].node in group
    ensures SettledNow(g, H, truth, net, base, Begin(e), e)
  {
    hide Happen, Wired, MarkedSettled, InPlace, Pending, UnderWay, Settled;
    Effect(g, H, net, Begin(e));
    EndsAfter(g, H, net, Begin(e));
    EndIsSettled(g, truth, net, base, group, e);
    PendingStaysPlaced(g, H, net, base, group, Begin(e), e);
    UnderWayIsPending(Happen(g, H, net, Begin(e)), e);
  }

  lemma ReaderIsSettled(g: Geometry, H: bytes -> Digest, truth: bytes, net: Net, base: nat, group: set<nat>, e: nat)
    requires WellFormed(g) && |truth| == g.total && Faithful(g, truth, net, base, group)
    requires Possible(g, net, Read(e)) && !Refuses(g, net, Read(e)) && Within(net, base, group, Read(e))
    requires base <= e && net.ends[e].node in group
    ensures SettledNow(g, H, truth, net, base, Read(e), e)
  {
    hide Happen, Wired, AllSettled, LoopSettled, RepliesIn, RequestsIn, Ask, PlacedEnd, Shape, PhaseAfter, Within,
      Credible, GenuineEnd, Refuses, Ended, Sent, UnderWay;
    var n, net', ph := net.ends[e].node, Happen(g, H, net, Read(e)), PhaseAt(net, e);
    Effect(g, H, net, Read(e));
    EndsAfter(g, H, net, Read(e));
    SameNode(g, H, net, Read(e), e);
    EndIsSettled(g, truth, net, base, group, e);
    FaithfulBasics(g, truth, net, base, group);
    WiredAt(net, e);
    ReadsTo(g, H, net, e);
    var more := UnderWay(net, e) != [];
    LoopStaysSettled(g, H, truth, net, base, group, Read(e), n, ph, more, more);
    if net.ends[e].inbox[0].Piece? {
      MoreIsUnderWay(net, e);
      WrittenIsSettled(g, truth, net', base, n, ph, |net.ends[e].inbox[0].block|, UnderWay(net', e) != []);
    } else {
      CompleteAsksNothing(g, ph.guard);
      if net.ends[e].inbox[0].Unchoke? && !ph.guard.complete && !Ended(net, Other(e)) {
        AskIs(g, net.nodes[n], ph);
        NodeDisk(g, H, net, base, group, Read(e), n);
        RequestIsUnderWay(g, H, net, e);
        AskedIsSettled(g, truth, net', base, e, ph.guard);
        AskingIsSettled(g, truth, net', base, n, ph, more, UnderWay(net', e) != []);
      } else {
        ReadsNoMore(g, H, net, e);
      }
    }
  }

  lemma MoreIsUnderWay(net: Net, e: nat)
    requires e < |net.ends| && Other(e) < |net.ends| && !PhaseAt(net, e).Gone?
    requires net.ends[e].inbox != [] && net.ends[e].inbox[0].Piece?
    ensures UnderWay(net, e) != []
  {
    HeadOf(net.ends[e].inbox);
  }

  lemma RequestIsUnderWay(g: Geometry, H: bytes -> Digest, net: Net, e: nat)
    requires WellFormed(g) && Possible(g, net, Read(e)) && Other(e) < |net.ends| && net.ends[e].inbox[0].Unchoke?
    requires !Ended(net, Other(e))
    ensures Other(e) < |Happen(g, H, net, Read(e)).ends| && e < |Happen(g, H, net, Read(e)).ends|
    ensures forall m :: m in Ask(g, PhaseAt(net, e).guard) ==> m in UnderWay(Happen(g, H, net, Read(e)), e)
  {
    hide Happen, Wired, RepliesIn, RequestsIn, Ask;
    UnderWayAfter(g, H, net, Read(e), e);
  }

  lemma ReadsNoMore(g: Geometry, H: bytes -> Digest, net: Net, e: nat)
    requires WellFormed(g) && Possible(g, net, Read(e)) && Other(e) < |net.ends| && !net.ends[e].inbox[0].Piece?
    requires !net.ends[e].inbox[0].Unchoke? || PhaseAt(net, e).guard.complete || Ended(net, Other(e))
    ensures Other(e) < |Happen(g, H, net, Read(e)).ends| && e < |Happen(g, H, net, Read(e)).ends|
    ensures UnderWay(Happen(g, H, net, Read(e)), e) == UnderWay(net, e)
  {
    hide Happen, Wired, RepliesIn, RequestsIn, Ask;
    UnderWayAfter(g, H, net, Read(e), e);
    CompleteAsksNothing(g, PhaseAt(net, e).guard);
  }

  lemma AskingIsSettled(g: Geometry, truth: bytes, net: Net, base: nat, n: nat, ph: Phase, more: bool, still: bool)
    requires WellFormed(g) && LoopSettled(g, truth, net, base, n, ph, more)
    requires Incomplete(ph) && NextSettled(g, truth, net, base, n, ph.guard)
    ensures LoopSettled(g, truth, net, base, n, ph, still)
  {
    hide SettledRange, NextSettled;
  }

  // A guard whose block is written relies on what it relied on when it waited.
  lemma WrittenIsSettled(g: Geometry, truth: bytes, net: Net, base: nat, n: nat, ph: Phase, len: nat, still: bool)
    requires WellFormed(g) && ph.Waiting? && LoopSettled(g, truth, net, base, n, ph, true)
    ensures LoopSettled(g, truth, net, base, n, Written(ph.guard, len), still)
  {
    hide SettledRange, PieceStart;
  }

  // --- a peer loop that goes on after a Piece message ---

  // It relies on what it had counted and was about to count.
  lemma ProceedsFrom(g: Geometry, H: bytes -> Digest, truth: bytes, net: Net, net': Net, base: nat, e: nat)
    requires WellFormed(g) && Possible(g, net, Proceed(e))
    requires net.ends[e].node < |net.nodes| && Shape(g, net.nodes[net.ends[e].node])
    requires LoopSettled(g, truth, net', base, net.ends[e].node, PhaseAt(net, e), true)
    requires PhaseAt(net, e).Written? ==> PhaseAt(net, e).len <= BLOCK
    ensures var ph' := PhaseAfter(g, H, net, Proceed(e));
            && (Incomplete(ph') ==> ph'.Waiting?)
            && LoopSettled(g, truth, net', base, net.ends[e].node, ph', false)
  {
    hide SettledRange, NextSettled, PieceStart, Wired, TargetSize, PhaseAfter, Advance, Next, Shape;
    WiredAt(net, e);
    var n, s, ph := net.ends[e].node, net.nodes[net.ends[e].node], PhaseAt(net, e);
    ProceedsTo(g, H, net, e);
    match ph
    case Written(guard, len) =>
      AdvancedIs(g, s, ph);
      if !guard.complete {
        CountedIsSettled(g, truth, net', base, n, guard, len);
      } else {
        NothingIsSettled(g, truth, net', base, n, PieceStart(g, guard.piece));
      }
    case Finished(guard, held) =>
      NothingIsSettled(g, truth, net', base, n, PieceStart(g, guard.piece));
    case Marked(guard) =>
      MarkedIsComplete(g, s, ph);
      NothingIsSettled(g, truth, net', base, n, PieceStart(g, TakePiece(s.missing, guard).1.piece));
    case _ =>
  }

  // The other peer loop is over, so that what the guard asks for next will not come; but replies are left to be
  // read, and it will count them as that.
  predicate AsksInVain(g: Geometry, H: bytes -> Digest, net: Net, e: nat)
    requires WellFormed(g) && Possible(g, net, Proceed(e))
  {
    && Other(e) < |net.ends| && Ended(net, Other(e)) && UnderWay(net, e) != []
    && Incomplete(PhaseAfter(g, H, net, Proceed(e)))
  }

  predicate ProceedKeeps(g: Geometry, H: bytes -> Digest, truth: bytes, net: Net, base: nat, e: nat)
    requires WellFormed(g) && Possible(g, net, Proceed(e))
  {
    AsksInVain(g, H, net, e) ==>
      NextSettled(g, truth, net, base, net.ends[e].node, PhaseAfter(g, H, net, Proceed(e)).guard)
  }

  // What it has counted afterwards is settled.
  lemma ProceederCounts(g: Geometry, H: bytes -> Digest, truth: bytes, net: Net, base: nat, group: set<nat>, e: nat)
    requires WellFormed(g) && |truth| == g.total && Faithful(g, truth, net, base, group)
    requires Possible(g, net, Proceed(e)) && Within(net, base, group, Proceed(e))
    requires base <= e && net.ends[e].node in group
    ensures var ph' := PhaseAfter(g, H, net, Proceed(e));
            && (Incomplete(ph') ==> ph'.Waiting?)
            && LoopSettled(g, truth, Happen(g, H, net, Proceed(e)), base, net.ends[e].node, ph', false)
  {
    hide Happen, Wired, AllSettled, LoopSettled, Shape, PhaseAfter, Within, Pending, InPlace,
      UnderWay, InPlace;
    var n, net', ph := net.ends[e].node, Happen(g, H, net, Proceed(e)), PhaseAt(net, e);
    EndIsSettled(g, truth, net, base, group, e);
    BusyIsSettled(g, truth, net, base, n, ph, UnderWay(net, e) != []);
    LoopStaysSettled(g, H, truth, net, base, group, Proceed(e), n, ph, true, true);
    ProceedsFrom(g, H, truth, net, net', base, e);
  }

  // If the other peer loop runs, or has not begun, what the guard asks for next is under way.
  lemma ProceederAsked(g: Geometry, H: bytes -> Digest, truth: bytes, net: Net, base: nat, group: set<nat>, e: nat)
    requires WellFormed(g) && |truth| == g.total && Faithful(g, truth, net, base, group)
    requires Possible(g, net, Proceed(e)) && base <= e && net.ends[e].node in group
    requires Other(e) < |net.ends| && !Ended(net, Other(e)) && Incomplete(PhaseAfter(g, H, net, Proceed(e)))
    requires PhaseAfter(g, H, net, Proceed(e)).Waiting?
    ensures NextSettled(g, truth, Happen(g, H, net, Proceed(e)), base, net.ends[e].node,
                        PhaseAfter(g, H, net, Proceed(e)).guard)
  {
    hide Happen, Wired, AllSettled, Placed, UnderWay, Ask, PlacedEnd, Shape, PhaseAfter, Ended, NextSettled,
      PhaseAt, Sent, NodeAfter, Possible;
    ActingPhase(g, net, Proceed(e));
    var n, net' := net.ends[e].node, Happen(g, H, net, Proceed(e));
    var ph' := PhaseAfter(g, H, net, Proceed(e));
    Effect(g, H, net, Proceed(e));
    EndsAfter(g, H, net, Proceed(e));
    SameNode(g, H, net, Proceed(e), e);
    EndIsSettled(g, truth, net, base, group, e);
    ShapeStays(g, H, net, base, group, Proceed(e), n);
    StaysWired(g, H, net, Proceed(e));
    WiredAt(net', e);
    AskIs(g, net'.nodes[n], ph');
    DiskSize(g, net'.nodes[n]);
    SentIsUnderWay(g, H, net, e);
    AskedIsSettled(g, truth, net', base, e, ph'.guard);
  }

  lemma SentIsUnderWay(g: Geometry, H: bytes -> Digest, net: Net, e: nat)
    requires WellFormed(g) && Possible(g, net, Proceed(e)) && Other(e) < |net.ends| && !Ended(net, Other(e))
    requires PhaseAfter(g, H, net, Proceed(e)).Waiting?
    ensures e < |Happen(g, H, net, Proceed(e)).ends| && Other(e) < |Happen(g, H, net, Proceed(e)).ends|
    ensures forall msg :: msg in Ask(g, PhaseAfter(g, H, net, Proceed(e)).guard) ==>
              msg in UnderWay(Happen(g, H, net, Proceed(e)), e)
  {
    hide Happen, Wired, RepliesIn, RequestsIn, Ask, PhaseAfter, Ended;
    ActingPhase(g, net, Proceed(e));
    UnderWayAfter(g, H, net, Proceed(e), e);
  }

  lemma ProceederExactly(g: Geometry, H: bytes -> Digest, truth: bytes, net: Net, base: nat, group: set<nat>, e: nat)
    requires WellFormed(g) && |truth| == g.total && Faithful(g, truth, net, base, group)
    requires Possible(g, net, Proceed(e)) && Within(net, base, group, Proceed(e))
    requires base <= e && net.ends[e].node in group
    ensures SettledNow(g, H, truth, net, base, Proceed(e), e) <==> ProceedKeeps(g, H, truth, net, base, e)
  {
    hide Happen, Placed, AllSettled, LoopSettled, RepliesIn, RequestsIn, PhaseAfter, Within, NextSettled, Ended, Sent,
      PlacedEnd, Shape;
    var n, net' := net.ends[e].node, Happen(g, H, net, Proceed(e));
    Effect(g, H, net, Proceed(e));
    EndsAfter(g, H, net, Proceed(e));
    SameNode(g, H, net, Proceed(e), e);
    EndIsSettled(g, truth, net, base, group, e);
    ActingPhase(g, net, Proceed(e));
    UnderWayAfter(g, H, net, Proceed(e), e);
    ProceederCounts(g, H, truth, net, base, group, e);
    var ph' := PhaseAt(net', e);
    MoreIsSettled(g, truth, net', base, n, ph', UnderWay(net', e) != []);
    if Incomplete(ph') {
      if Ended(net, Other(e)) {
        NextSettledBack(g, H, truth, net, base, group, e, n, ph'.guard);
      } else {
        ProceederAsked(g, H, truth, net, base, group, e);
      }
    }
  }

  lemma StaysWired(g: Geometry, H: bytes -> Digest, net: Net, ev: Event)
    requires WellFormed(g) && Possible(g, net, ev)
    ensures Wired(Happen(g, H, net, ev))
  {
    WiringAfter(g, H, net, ev);
  }

  lemma BusyIsSettled(g: Geometry, truth: bytes, net: Net, base: nat, n: nat, ph: Phase, more: bool)
    requires WellFormed(g) && !ph.Waiting? && LoopSettled(g, truth, net, base, n, ph, more)
    ensures LoopSettled(g, truth, net, base, n, ph, true)
  {
    hide SettledRange, NextSettled;
  }

  lemma MoreIsSettled(g: Geometry, truth: bytes, net: Net, base: nat, n: nat, ph: Phase, more: bool)
    requires WellFormed(g) && LoopSettled(g, truth, net, base, n, ph, false)
    ensures LoopSettled(g, truth, net, base, n, ph, more)
       <==> (Incomplete(ph) && more ==> NextSettled(g, truth, net, base, n, ph.guard))
  {
    hide SettledRange, NextSettled;
  }

  // A step after which nothing is sent to a running peer loop leaves what is settled as it was.
  lemma NextSettledBack(g: Geometry, H: bytes -> Digest, truth: bytes, net: Net, base: nat, group: set<nat>, e: nat,
                        n: nat, guard: Guard)
    requires WellFormed(g) && |truth| == g.total && Credible(g, truth, net, base, group)
    requires Possible(g, net, Proceed(e)) && Within(net, base, group, Proceed(e)) && n in group
    requires Other(e) < |net.ends| && Ended(net, Other(e))
    ensures NextSettled(g, truth, Happen(g, H, net, Proceed(e)), base, n, guard)
       <==> NextSettled(g, truth, net, base, n, guard)
  {
    hide Happen, Credible, Within, Settled, Ended, Possible, Needed;
    var at := PieceStart(g, guard.piece) + guard.offset;
    var net' := Happen(g, H, net, Proceed(e));
    if NextSettled(g, truth, net, base, n, guard) {
      RangeStays(g, H, truth, net, base, group, Proceed(e), n, at, at + Needed(g, guard));
    }
    if NextSettled(g, truth, net', base, n, guard) {
      forall x: nat | at <= x < at + Needed(g, guard) && x < g.total ensures Settled(g, truth, net, base, n, x) {
        assert Settled(g, truth, net', base, n, x);
        SettledBack(g, H, truth, net, base, group, e, n, x);
      }
    }
  }

  lemma SettledBack(g: Geometry, H: bytes -> Digest, truth: bytes, net: Net, base: nat, group: set<nat>, e: nat, n: nat,
                    x: nat)
    requires WellFormed(g) && |truth| == g.total && Credible(g, truth, net, base, group)
    requires Possible(g, net, Proceed(e)) && n in group && x < g.total
    requires Other(e) < |net.ends| && Ended(net, Other(e))
    requires Settled(g, truth, Happen(g, H, net, Proceed(e)), base, n, x)
    ensures Settled(g, truth, net, base, n, x)
  {
    hide Happen, Next, Wired, Shape, PlacedEnd, Ended, NodeAfter, UnderWay, IsAbout, Follow;
    var net' := Happen(g, H, net, Proceed(e));
    EndsAfter(g, H, net, Proceed(e));
    DiskSize(g, net.nodes[n]);
    ProceedWritesNothing(g, H, net, e, n);
    if net'.nodes[n].disk[x] != truth[x] {
      var f :| base <= f < |net'.ends| && net'.ends[f].node == n && Awaited(g, net', f, x);
      SameNode(g, H, net, Proceed(e), f);
      NothingMoreUnderWay(g, H, net, e, f);
      assert Awaited(g, net, f, x);
    }
  }

  lemma ProceedWritesNothing(g: Geometry, H: bytes -> Digest, net: Net, e: nat, n: nat)
    requires WellFormed(g) && Possible(g, net, Proceed(e)) && n < |net.nodes|
    ensures |Happen(g, H, net, Proceed(e)).nodes| == |net.nodes|
    ensures Happen(g, H, net, Proceed(e)).nodes[n].disk == net.nodes[n].disk
  {
    hide Happen, Next, Wired, Follow;
    EndsAfter(g, H, net, Proceed(e));
    if NodeOf(g, net, Proceed(e)) == n {
      NextDisk(g, H, net.nodes[n], StepOf(g, net, Proceed(e)).value);
      FollowsNoWrite(PhaseAt(net, e), net.ends[e].peer.value);
    }
  }

  lemma FollowsNoWrite(ph: Phase, p: nat)
    requires ph.Written? || ph.Finished? || ph.Marked?
    ensures !Follow(ph, p).Write? && !Follow(ph, p).Restart?
  {
  }

  lemma NothingMoreUnderWay(g: Geometry, H: bytes -> Digest, net: Net, e: nat, f: nat)
    requires WellFormed(g) && Possible(g, net, Proceed(e)) && Other(e) < |net.ends| && Ended(net, Other(e))
    requires f < |net.ends|
    ensures var net' := Happen(g, H, net, Proceed(e));
            Other(f) < |net'.ends| && f < |net'.ends| ==> Other(f) < |net.ends| && UnderWay(net', f) == UnderWay(net, f)
  {
    hide Happen, Sent, RepliesIn, RequestsIn, Ended, Wired;
    EndsAfter(g, H, net, Proceed(e));
    if Other(f) < |net.ends| {
      if PhaseAt(net, f).Gone? {
        LivesOn(g, H, net, Proceed(e), f);
      } else {
        UnderWayAfter(g, H, net, Proceed(e), f);
      }
    }
  }

  // --- ordinary events ---

  predicate RegularKeeps(g: Geometry, H: bytes -> Digest, truth: bytes, net: Net, base: nat, group: set<nat>, ev: Event)
    requires WellFormed(g) && Possible(g, net, ev)
  {
    ev.Proceed? && net.ends[ev.e].node in group ==> ProceedKeeps(g, H, truth, net, base, ev.e)
  }

  lemma EndExactly(g: Geometry, H: bytes -> Digest, truth: bytes, net: Net, base: nat, group: set<nat>, ev: Event,
                   e: nat)
    requires WellFormed(g) && |truth| == g.total && Faithful(g, truth, net, base, group)
    requires Possible(g, net, ev) && Within(net, base, group, ev) && Regular(g, net, ev)
    requires base <= e < |net.ends| && net.ends[e].node in group
    ensures SettledNow(g, H, truth, net, base, ev, e)
       <==> (ev == Proceed(e) ==> ProceedKeeps(g, H, truth, net, base, e))
  {
    hide Faithful, Within, SettledNow, Possible, ProceedKeeps;
    if ActorOf(ev) != Some(e) {
      BystanderIsSettled(g, H, truth, net, base, group, ev, e);
    } else {
      match ev
      case Begin(_) => BeginnerIsSettled(g, H, truth, net, base, group, e);
      case Read(_) => ReaderIsSettled(g, H, truth, net, base, group, e);
      case Proceed(_) => ProceederExactly(g, H, truth, net, base, group, e);
    }
  }

  lemma RegularExactly(g: Geometry, H: bytes -> Digest, truth: bytes, net: Net, base: nat, group: set<nat>, ev: Event)
    requires WellFormed(g) && |truth| == g.total && Faithful(g, truth, net, base, group)
    requires Possible(g, net, ev) && Within(net, base, group, ev) && Regular(g, net, ev)
    ensures AllSettled(g, truth, Happen(g, H, net, ev), base, group)
       <==> RegularKeeps(g, H, truth, net, base, group, ev)
  {
    hide Faithful, Within, Happen, MarkedSettled, EndSettled, ProceedKeeps, EndAfter, NodeAfter, Possible;
    var net' := Happen(g, H, net, ev);
    EndsAfter(g, H, net, ev);
    FaithfulBasics(g, truth, net, base, group);
    forall n | n in group ensures n < |net'.nodes| && MarkedSettled(g, truth, net', base, n) {
      MarksStay(g, H, truth, net, base, group, ev, n);
    }
    forall e | base <= e < |net'.ends| && net'.ends[e].node in group
      ensures EndSettled(g, truth, net', base, e)
         <==> (ev == Proceed(e) ==> e < |net.ends| && ProceedKeeps(g, H, truth, net, base, e))
    {
      if e < |net.ends| {
        SameNode(g, H, net, ev, e);
        EndExactly(g, H, truth, net, base, group, ev, e);
      } else {
        NewEndIsSettled(g, H, truth, net, base, ev, e);
        ProceederExists(g, net, ev);
      }
    }
    ProceederExists(g, net, ev);
    ProceederWithin(net, base, group, ev);
    if ev.Proceed? {
      SameNode(g, H, net, ev, ev.e);
    }
  }

  lemma ProceederWithin(net: Net, base: nat, group: set<nat>, ev: Event)
    requires Within(net, base, group, ev)
    ensures ev.Proceed? && ev.e < |net.ends| && net.ends[ev.e].node in group ==> base <= ev.e
  {
  }

  lemma ProceederExists(g: Geometry, net: Net, ev: Event)
    requires Possible(g, net, ev)
    ensures ev.Proceed? ==> ev.e < |net.ends|
  {
  }

  lemma FaithfulBasics(g: Geometry, truth: bytes, net: Net, base: nat, group: set<nat>)
    requires WellFormed(g) && Faithful(g, truth, net, base, group)
    ensures Credible(g, truth, net, base, group) && AllSettled(g, truth, net, base, group)
    ensures Placed(g, net, base, group) && Genuine(g, truth, net, base, group)
    ensures Wired(net) && base <= |net.ends| && |net.ends| % 2 == 0 && base % 2 == 0
    ensures forall n :: n in group ==> n < |net.nodes|
  {
    hide AllSettled, Placed, Genuine;
    PlacedBasics(g, net, base, group);
  }

  lemma NewEndIsSettled(g: Geometry, H: bytes -> Digest, truth: bytes, net: Net, base: nat, ev: Event, e: nat)
    requires WellFormed(g) && Possible(g, net, ev) && |net.ends| % 2 == 0
    requires |net.ends| <= e < |Happen(g, H, net, ev).ends|
    ensures EndSettled(g, truth, Happen(g, H, net, ev), base, e)
  {
    hide Happen, PlacedEnd, SettledRange, UnderWay, Possible;
    NewEndIsPlaced(g, H, net, ev, e);
    EndIsPlaced(g, Happen(g, H, net, ev), e);
  }

  // --- what can be read stays true ---

  lemma ServedIsGenuine(g: Geometry, truth: bytes, s: State, m: Message)
    requires WellFormed(g) && |truth| == g.total && m.Request? && InPlace(g, m)
    requires Reply(g, s, m.index, m.begin, m.length) != []
    ensures IsGenuine(g, truth, Reply(g, s, m.index, m.begin, m.length)[0]) <==> TrueOnDisk(g, truth, s.disk, m)
  {
    PieceBounds(g, m.index);
    var at, block := PieceStart(g, m.index) + m.begin, Reply(g, s, m.index, m.begin, m.length)[0].block;
    if TrueOnDisk(g, truth, s.disk, m) {
      assert forall k :: 0 <= k < m.length ==> block[k] == truth[at..at + m.length][k];
    }
    if block == truth[at..at + m.length] {
      assert forall x :: at <= x < at + m.length ==> s.disk[x] == block[x - at] && truth[x] == block[x - at];
    }
  }

  predicate MisledNow(g: Geometry, truth: bytes, net: Net, base: nat, group: set<nat>, ev: Event, e: nat)
    requires Possible(g, net, ev)
  {
    ev == Read(Other(e)) && Misleads(g, truth, net, base, group, ev)
  }

  lemma GenuineEndExactly(g: Geometry, H: bytes -> Digest, truth: bytes, net: Net, base: nat, group: set<nat>,
                          ev: Event, e: nat)
    requires WellFormed(g) && |truth| == g.total && Credible(g, truth, net, base, group)
    requires Possible(g, net, ev) && base <= e < |net.ends| && net.ends[e].node in group
    ensures e < |Happen(g, H, net, ev).ends|
    ensures GenuineEnd(g, truth, Happen(g, H, net, ev), e) <==> !MisledNow(g, truth, net, base, group, ev, e)
  {
    hide Happen, Wired, Shape, PlacedEnd, GenuineEnd, Misleads, PhaseAt, Possible;
    EndsAfter(g, H, net, ev);
    assert PlacedEnd(g, net, e) && GenuineEnd(g, truth, net, e);
    EndIsPlaced(g, net, e);
    if PhaseAt(net, e).Gone? {
      GoneStaysGenuine(g, H, truth, net, base, group, ev, e);
    } else if !Ordinary(ev) {
      EndingStaysGenuine(g, H, truth, net, base, group, ev, e);
    } else if ev == Read(Other(e)) {
      AnswerIsGenuine(g, H, truth, net, base, group, e);
    } else {
      LivesOn(g, H, net, ev, e);
      OthersStayGenuine(g, H, truth, net, ev, e);
    }
  }

  lemma OthersStayGenuine(g: Geometry, H: bytes -> Digest, truth: bytes, net: Net, ev: Event, e: nat)
    requires WellFormed(g) && Possible(g, net, ev) && e < |net.ends| && ev != Read(Other(e))
    requires GenuineEnd(g, truth, net, e) && !PhaseAt(net, e).Gone?
    ensures e < |Happen(g, H, net, ev).ends| && GenuineEnd(g, truth, Happen(g, H, net, ev), e)
  {
    hide Happen, RepliesIn, PhaseAt, Possible, IsGenuine, Sent;
    EndsAfter(g, H, net, ev);
    RepliesAfter(g, H, net, ev, e);
    if ev == Read(e) {
      ReadsFirst(g, net, e);
      HeadOf(net.ends[e].inbox);
    }
  }

  lemma ReadsFirst(g: Geometry, net: Net, e: nat)
    requires Possible(g, net, Read(e))
    ensures e < |net.ends| && net.ends[e].inbox != []
  {
  }

  lemma GoneStaysGenuine(g: Geometry, H: bytes -> Digest, truth: bytes, net: Net, base: nat, group: set<nat>, ev: Event,
                         e: nat)
    requires WellFormed(g) && Placed(g, net, base, group)
    requires Possible(g, net, ev) && base <= e < |net.ends| && net.ends[e].node in group && PhaseAt(net, e).Gone?
    ensures e < |Happen(g, H, net, ev).ends| && GenuineEnd(g, truth, Happen(g, H, net, ev), e)
    ensures !MisledNow(g, truth, net, base, group, ev, e)
  {
    hide Happen, PhaseAt, RepliesIn, Possible, Placed, PhaseAfter;
    EndsAfter(g, H, net, ev);
    if ev == Begin(e) {
      BegunIsPending(g, H, net, base, group, e);
    } else {
      StaysGone(g, H, net, ev, e);
    }
  }

  lemma StaysGone(g: Geometry, H: bytes -> Digest, net: Net, ev: Event, e: nat)
    requires WellFormed(g) && Possible(g, net, ev) && e < |net.ends| && PhaseAt(net, e).Gone? && ev != Begin(e)
    ensures PhaseAt(Happen(g, H, net, ev), e).Gone?
  {
    hide Happen, PhaseAt, Wired, PhaseAfter;
    Effect(g, H, net, ev);
    if ev == Hangup(e) {
      HungUpIsGone(g, H, net, e);
    }
  }

  lemma BegunIsPending(g: Geometry, H: bytes -> Digest, net: Net, base: nat, group: set<nat>, e: nat)
    requires WellFormed(g) && Placed(g, net, base, group)
    requires Possible(g, net, Begin(e)) && base <= e && net.ends[e].node in group
    ensures e < |Happen(g, H, net, Begin(e)).ends| && RepliesIn(Happen(g, H, net, Begin(e)).ends[e].inbox) == []
  {
    hide Happen, RepliesIn, RequestsIn, Wired, Shape, LoopFits, InPlace;
    assert PlacedEnd(g, net, e);
    PendingStaysPlaced(g, H, net, base, group, Begin(e), e);
  }

  lemma EndingStaysGenuine(g: Geometry, H: bytes -> Digest, truth: bytes, net: Net, base: nat, group: set<nat>,
                           ev: Event, e: nat)
    requires WellFormed(g) && Possible(g, net, ev) && !Ordinary(ev) && e < |net.ends|
    requires GenuineEnd(g, truth, net, e) && !PhaseAt(net, e).Gone?
    ensures e < |Happen(g, H, net, ev).ends| && GenuineEnd(g, truth, Happen(g, H, net, ev), e)
    ensures !MisledNow(g, truth, net, base, group, ev, e)
  {
    hide Happen, RepliesIn, PhaseAt, Possible, IsGenuine;
    EndsAfter(g, H, net, ev);
    RepliesAfter(g, H, net, ev, e);
  }

  lemma AnswerIsGenuine(g: Geometry, H: bytes -> Digest, truth: bytes, net: Net, base: nat, group: set<nat>, e: nat)
    requires WellFormed(g) && |truth| == g.total && Credible(g, truth, net, base, group)
    requires Possible(g, net, Read(Other(e))) && base <= e < |net.ends| && net.ends[e].node in group
    requires !PhaseAt(net, e).Gone? && Other(e) < |net.ends| && base % 2 == 0
    ensures e < |Happen(g, H, net, Read(Other(e))).ends|
    ensures GenuineEnd(g, truth, Happen(g, H, net, Read(Other(e))), e)
       <==> !Misleads(g, truth, net, base, group, Read(Other(e)))
  {
    hide Happen, RepliesIn, RequestsIn, PhaseAt, IsGenuine, TrueOnDisk, Wired, PlacedEnd, Shape, InPlace, IsAbout,
      Reply;
    var ev := Read(Other(e));
    EndsAfter(g, H, net, ev);
    LivesOn(g, H, net, ev, e);
    RepliesAfter(g, H, net, ev, e);
    assert Other(Other(e)) == e && GenuineEnd(g, truth, net, e);
    var m, s, replies := net.ends[Other(e)].inbox[0], net.nodes[NodeOf(g, net, ev)], RepliesIn(net.ends[e].inbox);
    if m.Request? {
      RequestAnswered(g, H, net, base, group, e);
      var sent := Sent(g, H, net, ev);
      assert sent == Reply(g, s, m.index, m.begin, m.length);
      if sent != [] {
        ServedIsGenuine(g, truth, s, m);
        assert sent[0] in replies + sent;
        assert forall r :: r in replies + sent ==> r in replies || r == sent[0];
      } else {
        assert replies + sent == replies;
      }
    }
  }

  lemma GenuineStaysExactly(g: Geometry, H: bytes -> Digest, truth: bytes, net: Net, base: nat, group: set<nat>,
                            ev: Event)
    requires WellFormed(g) && |truth| == g.total && Credible(g, truth, net, base, group) && Possible(g, net, ev)
    ensures Genuine(g, truth, Happen(g, H, net, ev), base, group) <==> !Misleads(g, truth, net, base, group, ev)
  {
    hide Happen, GenuineEnd, Possible, PlacedEnd, Shape, Wired, Misleads;
    var net' := Happen(g, H, net, ev);
    EndsAfter(g, H, net, ev);
    PlacedBasics(g, net, base, group);
    forall e | base <= e < |net'.ends| && net'.ends[e].node in group
      ensures GenuineEnd(g, truth, net', e) <==> !(e < |net.ends| && MisledNow(g, truth, net, base, group, ev, e))
    {
      if e < |net.ends| {
        SameNode(g, H, net, ev, e);
        GenuineEndExactly(g, H, truth, net, base, group, ev, e);
      } else {
        NewEndIsPlaced(g, H, net, ev, e);
        GoneIsGenuine(g, truth, net', e);
      }
    }
    if Misleads(g, truth, net, base, group, ev) {
      MisledEnd(g, truth, net, base, group, ev);
      SameNode(g, H, net, ev, Other(ev.e));
    }
  }

  lemma GoneIsGenuine(g: Geometry, truth: bytes, net: Net, e: nat)
    requires e < |net.ends| && PhaseAt(net, e).Gone?
    ensures GenuineEnd(g, truth, net, e)
  {
  }

  lemma MisledEnd(g: Geometry, truth: bytes, net: Net, base: nat, group: set<nat>, ev: Event)
    requires Possible(g, net, ev) && Misleads(g, truth, net, base, group, ev) && base % 2 == 0
    ensures var e := Other(ev.e);
            base <= e < |net.ends| && net.ends[e].node in group && MisledNow(g, truth, net, base, group, ev, e)
  {
  }
}
