// Completing without a new session: clients of a seeder whose requests were doubled, and whose connections were lost,
// can still get the whole content by going on as they are.
module Completion {
  import opened Prelude
  import opened Geometry
  import opened Swarm
  import opened SwarmProofs
  import opened SwarmTruth
  import opened Network
  import opened NetworkOrder
  import opened Sharing
  import opened Seeding
  import opened Losses
  import opened Exchange
  import opened Distribution
  import P = SwarmProgress
  import Creator

  // --- what a client needs for that ---

  // Each peer loop that runs has an end of a connection.
  predicate Housed(net: Net, n: nat)
    requires n < |net.nodes|
  {
    forall p :: 0 <= p < |net.nodes[n].peers| && !net.nodes[n].peers[p].Gone? ==>
      exists e :: 0 <= e < |net.ends| && net.ends[e].node == n && net.ends[e].peer == Some(p)
  }

  // No reply waits for it that came over a connection whose other peer loop is over.
  predicate NoneStranded(net: Net, n: nat) {
    forall e :: 0 <= e < |net.ends| && net.ends[e].node == n && Other(e) < |net.ends|
                && !PhaseAt(net, e).Gone? && Ended(net, Other(e)) ==>
      RepliesIn(net.ends[e].inbox) == []
  }

  // Moreover each piece has one owner: none was lost by a peer loop that ended before it marked its piece.
  predicate Recoverable(g: Geometry, net: Net, n: nat)
    requires WellFormed(g)
  {
    && n < |net.nodes| && Shape(g, net.nodes[n]) && Partition(g, net.nodes[n])
    && Housed(net, n) && NoneStranded(net, n)
  }

  // --- what a run of one client leaves alone ---

  predicate AwayKept(net: Net, net': Net, m: nat, n: nat) {
    && OthersKept(net, net', m, n) && |net.ends| <= |net'.ends|
    && (forall f :: 0 <= f < |net.ends| ==> net'.ends[f].node == net.ends[f].node)
    && (forall f :: |net.ends| <= f < |net'.ends| ==> net'.ends[f].node == n || net'.ends[f].node == m)
    && (forall f :: 0 <= f < |net.ends| && Other(f) < |net.ends| && net.ends[f].node != n
                    && net.ends[Other(f)].node != n ==>
          net'.ends[f] == net.ends[f] && PhaseAt(net', f) == PhaseAt(net, f))
  }

  lemma AwayKeptOn(a: Net, b: Net, c: Net, m: nat, n: nat)
    requires AwayKept(a, b, m, n) && AwayKept(b, c, m, n)
    ensures AwayKept(a, c, m, n)
  {
    hide PhaseAt;
  }

  lemma AwayKeepsItself(net: Net, m: nat, n: nat)
    ensures AwayKept(net, net, m, n)
  {
  }

  // A run of client n without new sessions, in which everything stays settled.
  predicate Arrives(g: Geometry, H: bytes -> Digest, truth: bytes, net: Net, m: nat, clients: set<nat>, n: nat,
                    run: seq<Event>, net': Net)
  {
    && WellFormed(g) && |truth| == g.total
    && PossibleRun(g, H, net, run) && Outcome(g, H, net, run) == net' && (forall ev :: ev in run ==> !ev.Reset?)
    && Star(g, truth, net', 0, m, clients) && AwayKept(net, net', m, n)
  }

  lemma ArrivesOn(g: Geometry, H: bytes -> Digest, truth: bytes, a: Net, m: nat, clients: set<nat>, n: nat,
                  r: seq<Event>, b: Net, s: seq<Event>, c: Net)
    requires Arrives(g, H, truth, a, m, clients, n, r, b) && Arrives(g, H, truth, b, m, clients, n, s, c)
    ensures Arrives(g, H, truth, a, m, clients, n, r + s, c)
  {
    hide Star, PossibleRun, Outcome, AwayKept;
    EventsConcat(g, H, a, r, s);
    AwayKeptOn(a, b, c, m, n);
  }

  lemma ArrivesByEvent(g: Geometry, H: bytes -> Digest, truth: bytes, net: Net, m: nat, clients: set<nat>, n: nat,
                       ev: Event)
    requires WellFormed(g) && |truth| == g.total && Possible(g, net, ev) && !ev.Reset?
    requires Star(g, truth, Happen(g, H, net, ev), 0, m, clients) && AwayKept(net, Happen(g, H, net, ev), m, n)
    ensures Arrives(g, H, truth, net, m, clients, n, [ev], Happen(g, H, net, ev))
  {
    hide Star, AwayKept, Possible, Happen;
    SingleEvent(g, H, net, ev);
  }

  // An event of a connection of the client leaves the others alone.
  lemma EventKeepsAway(g: Geometry, H: bytes -> Digest, net: Net, ev: Event, m: nat, n: nat)
    requires WellFormed(g) && Possible(g, net, ev) && !ev.Reset? && !ev.Dial?
    requires NodeOf(g, net, ev) == n || NodeOf(g, net, ev) == m
    requires ActorOf(ev).Some? ==>
               var e := ActorOf(ev).value;
               e < |net.ends| && Other(e) < |net.ends| && (net.ends[e].node == n || net.ends[Other(e)].node == n)
    ensures AwayKept(net, Happen(g, H, net, ev), m, n)
  {
    hide Happen, PhaseAt, PhaseAfter, NodeAfter, Possible, NodeOf, EndAfter, ActorOf;
    Effect(g, H, net, ev);
    EndsAfter(g, H, net, ev);
    var net' := Happen(g, H, net, ev);
    forall f | 0 <= f < |net.ends| ensures net'.ends[f].node == net.ends[f].node {
      SameNode(g, H, net, ev, f);
    }
    forall f | 0 <= f < |net.ends| && Other(f) < |net.ends| && net.ends[f].node != n && net.ends[Other(f)].node != n
      ensures net'.ends[f] == net.ends[f] && PhaseAt(net', f) == PhaseAt(net, f)
    {
      TwiceOther(f);
      UntouchedByOthers(g, H, net, ev, f);
    }
  }

  lemma TwiceOther(e: nat)
    ensures Other(Other(e)) == e
  {
  }

  lemma UntouchedByOthers(g: Geometry, H: bytes -> Digest, net: Net, ev: Event, f: nat)
    requires WellFormed(g) && Possible(g, net, ev) && f < |net.ends|
    requires ActorOf(ev) != Some(f) && ActorOf(ev) != Some(Other(f))
    ensures EndAfter(g, H, net, ev, f) == net.ends[f]
  {
    hide Sent, Wired;
  }

  // --- a connection comes to rest ---

  // The ends of the client have the peer loops they had, and none has come back.
  predicate LoopsKept(net: Net, net': Net, n: nat) {
    && n < |net.nodes| && n < |net'.nodes| && |net.ends| <= |net'.ends|
    && (forall f :: 0 <= f < |net.ends| && net.ends[f].node == n ==>
          net'.ends[f].node == n && net'.ends[f].peer == net.ends[f].peer)
    && |net'.nodes[n].peers| == |net.nodes[n].peers|
    && (forall q :: 0 <= q < |net.nodes[n].peers| && !net'.nodes[n].peers[q].Gone? ==> !net.nodes[n].peers[q].Gone?)
  }

  lemma HousedStays(net: Net, net': Net, n: nat)
    requires LoopsKept(net, net', n) && Housed(net, n)
    ensures Housed(net', n)
  {
    forall p | 0 <= p < |net'.nodes[n].peers| && !net'.nodes[n].peers[p].Gone?
      ensures exists e :: 0 <= e < |net'.ends| && net'.ends[e].node == n && net'.ends[e].peer == Some(p)
    {
      var e :| 0 <= e < |net.ends| && net.ends[e].node == n && net.ends[e].peer == Some(p);
      assert net'.ends[e].node == n && net'.ends[e].peer == Some(p);
    }
  }

  function LiveWeight(ph: Phase): nat { if ph.Gone? then 0 else 1 }

  function LiveLoops(s: State): nat { SumBy(LiveWeight, s.peers) }

  lemma FewerLive(g: Geometry, s: State, s': State, p: nat)
    requires WellFormed(g) && KeepsPieces(g, s, s', p) && p < |s.peers| && !s.peers[p].Gone?
    ensures LiveLoops(s') <= LiveLoops(s) && (s'.peers[p].Gone? ==> LiveLoops(s') < LiveLoops(s))
  {
    hide Shape, Partition, SumBy;
    assert s'.peers == s.peers[p := s'.peers[p]];
    SumByUpdate(LiveWeight, s.peers, p, s'.peers[p]);
  }

  // What a stage of the run gives: the client can still be brought to completion, and has no more peer loops.
  predicate StageOf(g: Geometry, H: bytes -> Digest, truth: bytes, net: Net, m: nat, clients: set<nat>, n: nat,
                    run: seq<Event>, net': Net)
  {
    && Arrives(g, H, truth, net, m, clients, n, run, net') && Recoverable(g, net', n)
    && n < |net.nodes| && LiveLoops(net'.nodes[n]) <= LiveLoops(net.nodes[n])
  }

  lemma StageOn(g: Geometry, H: bytes -> Digest, truth: bytes, a: Net, m: nat, clients: set<nat>, n: nat,
                r: seq<Event>, b: Net, s: seq<Event>, c: Net)
    requires StageOf(g, H, truth, a, m, clients, n, r, b) && StageOf(g, H, truth, b, m, clients, n, s, c)
    ensures StageOf(g, H, truth, a, m, clients, n, r + s, c)
  {
    hide Arrives, Recoverable, LiveLoops;
    ArrivesOn(g, H, truth, a, m, clients, n, r, b, s, c);
  }

  // The end of a client's peer loop with nothing that can still arrive for it, and no piece about to be marked.
  predicate AtRest(net: Net, e: nat, n: nat) {
    && e < |net.ends| && Other(e) < |net.ends| && net.ends[e].node == n
    && !PhaseAt(net, e).Gone? && !PhaseAt(net, e).Finished? && UnderWay(net, e) == []
  }

  lemma LinkComesToRest(g: Geometry, H: bytes -> Digest, truth: bytes, net: Net, m: nat, clients: set<nat>, e: nat,
                        n: nat)
    returns (run: seq<Event>, net': Net)
    requires Truth(g, H, truth) && g.pieceLength + BLOCK <= U32
    requires Linked(g, truth, net, 0, m, clients, e) && net.ends[e].node == n && Recoverable(g, net, n)
    ensures StageOf(g, H, truth, net, m, clients, n, run, net') && AtRest(net', e, n)
  {
    hide Linked, Star, Possible, PossibleRun, Outcome, OfLink, KeepsPieces, Housed, NoneStranded, Shape, Partition,
      PhaseAt, AwayKept, OtherEndsKept, OthersKept, Quiet, LiveLoops, UnderWay;
    TruthHolds(g, H, truth);
    LinkHasEnds(g, truth, net, 0, m, clients, e);
    run := LinkEnds(g, H, truth, net, 0, m, clients, e);
    net' := Outcome(g, H, net, run);
    LinkHasLoop(g, truth, net, m, clients, e);
    QuietRests(g, truth, net', m, clients, e);
    OfLinkNoReset(e, run);
    LinkKeepsAway(net, net', m, n, e);
    LinkKeepsRecoverable(g, net, net', e, n);
    FewerLive(g, net.nodes[n], net'.nodes[n], net.ends[e].peer.value);
  }

  lemma LinkHasLoop(g: Geometry, truth: bytes, net: Net, m: nat, clients: set<nat>, e: nat)
    requires WellFormed(g) && |truth| == g.total && Linked(g, truth, net, 0, m, clients, e)
    ensures net.ends[e].peer.Some? && net.ends[e].peer.value < |net.nodes[net.ends[e].node].peers|
    ensures !net.nodes[net.ends[e].node].peers[net.ends[e].peer.value].Gone?
  {
    hide Star;
    LinkIs(g, truth, net, 0, m, clients, e);
  }

  lemma QuietRests(g: Geometry, truth: bytes, net: Net, m: nat, clients: set<nat>, e: nat)
    requires WellFormed(g) && |truth| == g.total && Linked(g, truth, net, 0, m, clients, e) && Quiet(net, e)
    ensures AtRest(net, e, net.ends[e].node) && Star(g, truth, net, 0, m, clients) && !Ended(net, Other(e))
    ensures net.ends[Other(e)].node != net.ends[e].node
  {
    hide Star;
    LinkIs(g, truth, net, 0, m, clients, e);
  }

  lemma OfLinkNoReset(e: nat, run: seq<Event>)
    requires forall ev :: ev in run ==> OfLink(e, ev)
    ensures forall ev :: ev in run ==> !ev.Reset?
  {
  }

  lemma LinkKeepsAway(net: Net, net': Net, m: nat, n: nat, e: nat)
    requires OthersKept(net, net', m, n) && OtherEndsKept(net, net', e) && e < |net.ends| && net.ends[e].node == n
    ensures AwayKept(net, net', m, n) && |net'.nodes| == |net.nodes|
  {
    hide PhaseAt;
    TwiceOther(e);
  }

  lemma LinkKeepsRecoverable(g: Geometry, net: Net, net': Net, e: nat, n: nat)
    requires WellFormed(g) && Recoverable(g, net, n) && e < |net.ends| && net.ends[e].node == n
    requires OtherEndsKept(net, net', e) && |net'.nodes| == |net.nodes|
    requires Other(e) < |net'.ends| && !Ended(net', Other(e)) && net'.ends[Other(e)].node != n
    requires net.ends[e].peer.Some? && net.ends[e].peer.value < |net.nodes[n].peers|
    requires KeepsPieces(g, net.nodes[n], net'.nodes[n], net.ends[e].peer.value)
    requires !net.nodes[n].peers[net.ends[e].peer.value].Gone?
    ensures Recoverable(g, net', n)
  {
    hide Shape, Partition, Housed, PhaseAt;
    assert LoopsKept(net, net', n);
    HousedStays(net, net', n);
    TwiceOther(e);
    forall f | 0 <= f < |net'.ends| && net'.ends[f].node == n && Other(f) < |net'.ends|
               && !PhaseAt(net', f).Gone? && Ended(net', Other(f))
      ensures RepliesIn(net'.ends[f].inbox) == []
    {
      TwiceOther(f);
    }
  }

  // --- the other connections of a client ---

  // A connection of client n, and what holds of its end e after an event of its peer loops.
  predicate ClientLink(net: Net, e: nat, n: nat) {
    && e < |net.ends| && Other(e) < |net.ends| && net.ends[e].node == n && net.ends[Other(e)].node != n
    && n < |net.nodes|
  }

  lemma StarLink(g: Geometry, truth: bytes, net: Net, m: nat, clients: set<nat>, e: nat, n: nat)
    requires WellFormed(g) && |truth| == g.total && Star(g, truth, net, 0, m, clients)
    requires e < |net.ends| && net.ends[e].node == n && n in clients
    ensures ClientLink(net, e, n) && net.ends[Other(e)].node == m && n != m && ClientEnd(g, truth, net, e)
    ensures Wired(net) && m < |net.nodes| && Seeder(g, truth, net.nodes[m]) && Pending(net, Other(e)) == []
  {
    hide Wired, Shape, Seeder, AllSettled, ClientEnd;
    assert FrameEnd(g, truth, net, m, clients, e) && FrameEnd(g, truth, net, m, clients, Other(e));
    TwiceOther(e);
  }

  lemma EventKeepsOthers(g: Geometry, H: bytes -> Digest, net: Net, ev: Event, e: nat, f: nat)
    requires WellFormed(g) && Possible(g, net, ev) && !ev.Reset? && !ev.Dial? && f < |net.ends| && e < |net.ends|
    requires (ActorOf(ev) == Some(e) || ActorOf(ev) == Some(Other(e))) && f != e && f != Other(e)
    ensures f < |Happen(g, H, net, ev).ends|
    ensures Happen(g, H, net, ev).ends[f] == net.ends[f] && PhaseAt(Happen(g, H, net, ev), f) == PhaseAt(net, f)
  {
    hide Happen, PhaseAt, PhaseAfter, NodeAfter, Possible, EndAfter, ActorOf;
    Effect(g, H, net, ev);
    EndsAfter(g, H, net, ev);
    TwiceOther(f);
    TwiceOther(e);
    UntouchedByOthers(g, H, net, ev, f);
  }

  lemma EventKeepsStranded(g: Geometry, H: bytes -> Digest, net: Net, ev: Event, e: nat, n: nat)
    requires WellFormed(g) && Possible(g, net, ev) && !ev.Reset? && !ev.Dial? && ClientLink(net, e, n)
    requires ActorOf(ev) == Some(e) || ActorOf(ev) == Some(Other(e))
    requires NoneStranded(net, n) && e < |Happen(g, H, net, ev).ends| && Other(e) < |Happen(g, H, net, ev).ends|
    requires var net' := Happen(g, H, net, ev);
             !PhaseAt(net', e).Gone? && Ended(net', Other(e)) ==> RepliesIn(net'.ends[e].inbox) == []
    ensures NoneStranded(Happen(g, H, net, ev), n)
  {
    hide Happen, PhaseAt, PhaseAfter, NodeAfter, Possible, ActorOf, EndAfter, RepliesIn;
    var net' := Happen(g, H, net, ev);
    EndsAfter(g, H, net, ev);
    forall f | 0 <= f < |net'.ends| && net'.ends[f].node == n && Other(f) < |net'.ends|
               && !PhaseAt(net', f).Gone? && Ended(net', Other(f))
      ensures RepliesIn(net'.ends[f].inbox) == []
    {
      TwiceOther(f);
      TwiceOther(e);
      SameNode(g, H, net, ev, Other(e));
      if f != e {
        EventKeepsOthers(g, H, net, ev, e, f);
        EventKeepsOthers(g, H, net, ev, e, Other(f));
      }
    }
  }

  lemma EventKeepsLoops(g: Geometry, H: bytes -> Digest, net: Net, ev: Event, e: nat, n: nat)
    requires WellFormed(g) && Possible(g, net, ev) && ClientLink(net, e, n)
    requires ev == Begin(Other(e)) || ev == Proceed(e) || ev == Hangup(e)
    requires ev != Begin(Other(e)) ==> net.ends[e].peer.Some?
    ensures LoopsKept(net, Happen(g, H, net, ev), n)
    ensures ev == Begin(Other(e)) ==> Happen(g, H, net, ev).nodes[n] == net.nodes[n]
    ensures ev != Begin(Other(e)) ==>
              var p := net.ends[e].peer.value;
              && p < |net.nodes[n].peers| && !net.nodes[n].peers[p].Gone? && PhaseAt(net, e) == net.nodes[n].peers[p]
              && Happen(g, H, net, ev).nodes[n]
              == Next(g, H, net.nodes[n], if ev.Hangup? then Drop(p) else Follow(net.nodes[n].peers[p], p))
  {
    hide Happen, Next, Wired, Follow, Sent;
    EndsAfter(g, H, net, ev);
    if ev.Begin? {
      TwiceOther(e);
    } else {
      assert Attached(net, e);
      if ev.Proceed? {
        FollowIs(PhaseAt(net, e), net.ends[e].peer.value);
      }
      NextPeers(g, H, net.nodes[n], StepOf(g, net, ev).value);
    }
  }

  // The seeder's peer loop of the connection begins.
  lemma ServerJoins(g: Geometry, H: bytes -> Digest, truth: bytes, net: Net, m: nat, clients: set<nat>, e: nat, n: nat)
    returns (run: seq<Event>, net': Net)
    requires Truth(g, H, truth) && Star(g, truth, net, 0, m, clients) && n in clients && Recoverable(g, net, n)
    requires e < |net.ends| && net.ends[e].node == n && !PhaseAt(net, e).Gone?
    requires Other(e) < |net.ends| && net.ends[Other(e)].peer.None?
    ensures StageOf(g, H, truth, net, m, clients, n, run, net')
    ensures Linked(g, truth, net', 0, m, clients, e) && net'.ends[e].node == n
  {
    hide Star, Happen, Seeder, ClientEnd, Housed, NoneStranded, Shape, Partition, PhaseAt, AwayKept, Wired, NodeAfter,
      PhaseAfter, Truth, Keeps, LiveLoops;
    TruthHolds(g, H, truth);
    StarLink(g, truth, net, m, clients, e, n);
    var ev := Begin(Other(e));
    net' := Happen(g, H, net, ev);
    run := [ev];
    StarStays(g, H, truth, net, 0, m, clients, ev);
    Effect(g, H, net, ev);
    EndsAfter(g, H, net, ev);
    SameNode(g, H, net, ev, e);
    BeginsWaiting(g, H, net, Other(e));
    TwiceOther(e);
    EventKeepsAway(g, H, net, ev, m, n);
    ArrivesByEvent(g, H, truth, net, m, clients, n, ev);
    EventKeepsLoops(g, H, net, ev, e, n);
    HousedStays(net, net', n);
    RunningIsNotEnded(net', Other(e));
    EventKeepsStranded(g, H, net, ev, e, n);
  }

  // A peer loop behind one that is over marks the piece it has finished.
  lemma StrandedMarks(g: Geometry, H: bytes -> Digest, truth: bytes, net: Net, m: nat, clients: set<nat>, e: nat,
                      n: nat)
    returns (run: seq<Event>, net': Net)
    requires Truth(g, H, truth) && Star(g, truth, net, 0, m, clients) && n in clients && Recoverable(g, net, n)
    requires e < |net.ends| && net.ends[e].node == n && PhaseAt(net, e).Finished?
    requires Other(e) < |net.ends| && Ended(net, Other(e)) && RepliesIn(net.ends[e].inbox) == []
    ensures StageOf(g, H, truth, net, m, clients, n, run, net') && AtRest(net', e, n)
  {
    hide Star, Happen, Seeder, Housed, NoneStranded, Shape, Partition, AwayKept, Wired, NodeAfter,
      PhaseAfter, Truth, RepliesIn, RequestsIn, Next, Ended, LiveLoops, Pending, WellPlaced, PhaseAt;
    TruthHolds(g, H, truth);
    StarLink(g, truth, net, m, clients, e, n);
    var ev := Proceed(e);
    WiredAt(net, e);
    assert Possible(g, net, ev);
    net' := Happen(g, H, net, ev);
    run := [ev];
    EndsAfter(g, H, net, ev);
    SameNode(g, H, net, ev, e);
    LivesOn(g, H, net, ev, e);
    LivesOn(g, H, net, ev, Other(e));
    UnderWayAfter(g, H, net, ev, e);
    VainlyNothing(net, e);
    StrandedKeeps(g, H, truth, net, m, clients, e);
    EventKeepsAway(g, H, net, ev, m, n);
    ArrivesByEvent(g, H, truth, net, m, clients, n, ev);
    EventKeepsLoops(g, H, net, ev, e, n);
    HousedStays(net, net', n);
    RepliesAfter(g, H, net, ev, e);
    EventKeepsStranded(g, H, net, ev, e, n);
    MarkKeepsPieces(g, H, net.nodes[n], net.ends[e].peer.value, PhaseAt(net, e));
    FewerLive(g, net.nodes[n], net'.nodes[n], net.ends[e].peer.value);
    Effect(g, H, net, ev);
    ProceedsTo(g, H, net, e);
  }

  lemma VainlyNothing(net: Net, e: nat)
    requires e < |net.ends| && Other(e) < |net.ends| && Ended(net, Other(e)) && RepliesIn(net.ends[e].inbox) == []
    ensures UnderWay(net, e) == []
  {
  }

  lemma StrandedKeeps(g: Geometry, H: bytes -> Digest, truth: bytes, net: Net, m: nat, clients: set<nat>, e: nat)
    requires Truth(g, H, truth) && Star(g, truth, net, 0, m, clients) && Possible(g, net, Proceed(e))
    requires e < |net.ends| && Other(e) < |net.ends| && UnderWay(net, e) == []
    ensures Star(g, truth, Happen(g, H, net, Proceed(e)), 0, m, clients)
  {
    hide Star, Happen, Possible, UnderWay, NextSettled, PhaseAfter, Truth;
    TruthHolds(g, H, truth);
    StarStaysExactly(g, H, truth, net, 0, m, clients, Proceed(e));
  }

  lemma MarkKeepsPieces(g: Geometry, H: bytes -> Digest, s: State, p: nat, ph: Phase)
    requires WellFormed(g) && Shape(g, s) && p < |s.peers| && s.peers[p] == ph && ph.Finished?
    requires LoopFits(s.have, ph, [])
    ensures KeepsPieces(g, s, Next(g, H, s, Follow(ph, p)), p)
  {
    hide Shape, Partition, Next;
    StepKeepsPieces(g, H, s, p, Mark(p));
  }

  // --- the client closes its connections ---

  // Whatever the state of its connection, a peer loop of the client can be brought to rest.
  lemma LoopComesToRest(g: Geometry, H: bytes -> Digest, truth: bytes, net: Net, m: nat, clients: set<nat>, e: nat,
                        n: nat)
    returns (run: seq<Event>, net': Net)
    requires Truth(g, H, truth) && g.pieceLength + BLOCK <= U32
    requires Star(g, truth, net, 0, m, clients) && n in clients && Recoverable(g, net, n)
    requires e < |net.ends| && net.ends[e].node == n && !PhaseAt(net, e).Gone?
    ensures StageOf(g, H, truth, net, m, clients, n, run, net') && AtRest(net', e, n)
  {
    hide Star, StageOf, Linked, Recoverable, AtRest, UnderWay, Truth;
    TruthHolds(g, H, truth);
    StarLink(g, truth, net, m, clients, e, n);
    if net.ends[Other(e)].peer.None? {
      var first, next := ServerJoins(g, H, truth, net, m, clients, e, n);
      StageIsRecoverable(g, H, truth, net, m, clients, n, first, next);
      var rest;
      rest, net' := LinkComesToRest(g, H, truth, next, m, clients, e, n);
      run := first + rest;
      StageOn(g, H, truth, net, m, clients, n, first, next, rest, net');
    } else if PhaseAt(net, Other(e)).Gone? {
      NotStranded(g, net, e, n);
      if PhaseAt(net, e).Finished? {
        run, net' := StrandedMarks(g, H, truth, net, m, clients, e, n);
      } else {
        run, net' := [], net;
        StandsStill(g, H, truth, net, m, clients, n);
        VainlyNothing(net, e);
        assert AtRest(net, e, n) by { IsAtRest(net, e, n); }
      }
    } else {
      ServerWaits(g, truth, net, m, Other(e));
      assert Linked(g, truth, net, 0, m, clients, e) by { IsLinked(g, truth, net, m, clients, e, n); }
      run, net' := LinkComesToRest(g, H, truth, net, m, clients, e, n);
    }
  }

  lemma StageIsRecoverable(g: Geometry, H: bytes -> Digest, truth: bytes, net: Net, m: nat, clients: set<nat>, n: nat,
                           run: seq<Event>, net': Net)
    requires StageOf(g, H, truth, net, m, clients, n, run, net')
    ensures Recoverable(g, net', n) && Star(g, truth, net', 0, m, clients)
  {
    hide Recoverable, Star, LiveLoops, AwayKept, PossibleRun, Outcome;
  }

  lemma NotStranded(g: Geometry, net: Net, e: nat, n: nat)
    requires WellFormed(g) && Recoverable(g, net, n) && e < |net.ends| && net.ends[e].node == n
    requires Other(e) < |net.ends| && !PhaseAt(net, e).Gone? && net.ends[Other(e)].peer.Some?
    requires PhaseAt(net, Other(e)).Gone?
    ensures Ended(net, Other(e)) && RepliesIn(net.ends[e].inbox) == []
  {
    hide Shape, Partition, Housed, RepliesIn, PhaseAt;
  }

  lemma StandsStill(g: Geometry, H: bytes -> Digest, truth: bytes, net: Net, m: nat, clients: set<nat>, n: nat)
    requires WellFormed(g) && |truth| == g.total && Star(g, truth, net, 0, m, clients) && Recoverable(g, net, n)
    ensures StageOf(g, H, truth, net, m, clients, n, [], net)
  {
    hide Star, Recoverable, LiveLoops, AwayKept;
    RecoverableExists(g, net, n);
    AwayKeepsItself(net, m, n);
  }

  lemma RecoverableExists(g: Geometry, net: Net, n: nat)
    requires WellFormed(g) && Recoverable(g, net, n)
    ensures n < |net.nodes|
  {
  }

  lemma IsAtRest(net: Net, e: nat, n: nat)
    requires e < |net.ends| && Other(e) < |net.ends| && net.ends[e].node == n && UnderWay(net, e) == []
    requires !PhaseAt(net, e).Gone? && !PhaseAt(net, e).Finished?
    ensures AtRest(net, e, n)
  {
  }

  lemma ServerWaits(g: Geometry, truth: bytes, net: Net, m: nat, e: nat)
    requires WellFormed(g) && |truth| == g.total && Wired(net) && m < |net.nodes| && Seeder(g, truth, net.nodes[m])
    requires e < |net.ends| && net.ends[e].node == m && !PhaseAt(net, e).Gone?
    ensures PhaseAt(net, e).Waiting?
  {
    hide Shape, Wired, P.AllMarked;
    WiredAt(net, e);
  }

  lemma IsLinked(g: Geometry, truth: bytes, net: Net, m: nat, clients: set<nat>, e: nat, n: nat)
    requires WellFormed(g) && |truth| == g.total && Star(g, truth, net, 0, m, clients) && n in clients
    requires ClientLink(net, e, n) && !PhaseAt(net, e).Gone? && PhaseAt(net, Other(e)).Waiting?
    ensures Linked(g, truth, net, 0, m, clients, e)
  {
    hide Star;
  }

  // At rest a peer loop can be ended without a loss.
  lemma RestingHangsUp(g: Geometry, H: bytes -> Digest, truth: bytes, net: Net, m: nat, clients: set<nat>, e: nat,
                       n: nat)
    returns (run: seq<Event>, net': Net)
    requires Truth(g, H, truth) && Star(g, truth, net, 0, m, clients) && n in clients && Recoverable(g, net, n)
    requires AtRest(net, e, n)
    ensures StageOf(g, H, truth, net, m, clients, n, run, net')
    ensures n < |net.nodes| && LiveLoops(net'.nodes[n]) < LiveLoops(net.nodes[n])
  {
    hide Star, Happen, Seeder, ClientEnd, Housed, NoneStranded, Shape, Partition, AwayKept, Wired, NodeAfter,
      PhaseAfter, Truth, RepliesIn, RequestsIn, Next, LiveLoops, UnderWay, PhaseAt, Loses;
    TruthHolds(g, H, truth);
    StarLink(g, truth, net, m, clients, e, n);
    var ev := Hangup(e);
    net' := Happen(g, H, net, ev);
    run := [ev];
    assert Possible(g, net, ev);
    WiredAt(net, e);
    RestLosesNothing(g, H, truth, net, m, clients, e, n);
    EndsAfter(g, H, net, ev);
    StillIs(g, H, net, ev, e);
    HangsUp(net, e);
    EventKeepsAway(g, H, net, ev, m, n);
    ArrivesByEvent(g, H, truth, net, m, clients, n, ev);
    EventKeepsLoops(g, H, net, ev, e, n);
    HousedStays(net, net', n);
    EventKeepsStranded(g, H, net, ev, e, n);
    DropKeepsPieces(g, H, net.nodes[n], net.ends[e].peer.value, PhaseAt(net, e));
  }

  lemma HangsUp(net: Net, e: nat)
    requires e < |net.ends| && net.ends[e].peer.Some?
    ensures EndedAfter(net, Hangup(e), e)
  {
  }

  lemma RestLosesNothing(g: Geometry, H: bytes -> Digest, truth: bytes, net: Net, m: nat, clients: set<nat>, e: nat,
                         n: nat)
    requires Truth(g, H, truth) && Star(g, truth, net, 0, m, clients) && Possible(g, net, Hangup(e)) && n in clients
    requires AtRest(net, e, n)
    ensures Star(g, truth, Happen(g, H, net, Hangup(e)), 0, m, clients)
  {
    hide Star, Faithful, Happen, Possible, UnderWay, StillUnderWay, PhaseAt, Loses, Truth;
    TruthHolds(g, H, truth);
    forall f | 0 <= f < |net.ends| && net.ends[f].node in clients && Other(f) < |net.ends|
      ensures StillUnderWay(net, Hangup(e), f) == UnderWay(net, f)
    {
      StarLink(g, truth, net, m, clients, f, net.ends[f].node);
      StarLink(g, truth, net, m, clients, e, n);
      HangupEndsItsOwn(net, e, f);
    }
    StarSettles(g, truth, net, 0, m, clients);
    NothingEnds(g, truth, net, 0, clients, Hangup(e));
    StarStaysExactly(g, H, truth, net, 0, m, clients, Hangup(e));
  }

  lemma HangupEndsItsOwn(net: Net, e: nat, f: nat)
    requires e < |net.ends| && Other(e) < |net.ends| && f < |net.ends| && Other(f) < |net.ends|
    requires UnderWay(net, e) == [] && Other(f) != e
    ensures StillUnderWay(net, Hangup(e), f) == UnderWay(net, f)
  {
    hide RepliesIn, RequestsIn, PhaseAt;
  }

  lemma DropKeepsPieces(g: Geometry, H: bytes -> Digest, s: State, p: nat, ph: Phase)
    requires WellFormed(g) && Shape(g, s) && Partition(g, s) && p < |s.peers| && s.peers[p] == ph
    requires !ph.Gone? && !ph.Finished?
    ensures Shape(g, Next(g, H, s, Drop(p))) && Partition(g, Next(g, H, s, Drop(p)))
    ensures LiveLoops(Next(g, H, s, Drop(p))) < LiveLoops(s)
  {
    hide Shape, Partition, SumBy;
    OwnershipExactly(g, H, s, Drop(p));
    SumByUpdate(LiveWeight, s.peers, p, Gone);
  }

  // So the client can end all of them.
  lemma {:induction false} ClosesAll(g: Geometry, H: bytes -> Digest, truth: bytes, net: Net, m: nat,
                                     clients: set<nat>, n: nat)
    returns (run: seq<Event>, net': Net)
    requires Truth(g, H, truth) && g.pieceLength + BLOCK <= U32
    requires Star(g, truth, net, 0, m, clients) && n in clients && Recoverable(g, net, n)
    ensures StageOf(g, H, truth, net, m, clients, n, run, net')
    ensures n < |net'.nodes| && forall q :: 0 <= q < |net'.nodes[n].peers| ==> net'.nodes[n].peers[q].Gone?
    decreases LiveLoops(net.nodes[n])
  {
    hide Star, StageOf, Recoverable, AtRest, LiveLoops, Truth, Wired;
    TruthHolds(g, H, truth);
    RecoverableExists(g, net, n);
    if forall q :: 0 <= q < |net.nodes[n].peers| ==> net.nodes[n].peers[q].Gone? {
      run, net' := [], net;
      StandsStill(g, H, truth, net, m, clients, n);
    } else {
      var p :| 0 <= p < |net.nodes[n].peers| && !net.nodes[n].peers[p].Gone?;
      var e := HousedAt(g, net, n, p);
      var one, a := LoopComesToRest(g, H, truth, net, m, clients, e, n);
      StageIsRecoverable(g, H, truth, net, m, clients, n, one, a);
      var two, b := RestingHangsUp(g, H, truth, a, m, clients, e, n);
      StageIsRecoverable(g, H, truth, a, m, clients, n, two, b);
      StageOn(g, H, truth, net, m, clients, n, one, a, two, b);
      StageLives(g, H, truth, net, m, clients, n, one, a);
      var rest;
      rest, net' := ClosesAll(g, H, truth, b, m, clients, n);
      StageOn(g, H, truth, net, m, clients, n, one + two, b, rest, net');
      run := one + two + rest;
    }
  }

  lemma StageLives(g: Geometry, H: bytes -> Digest, truth: bytes, net: Net, m: nat, clients: set<nat>, n: nat,
                   run: seq<Event>, net': Net)
    requires StageOf(g, H, truth, net, m, clients, n, run, net')
    ensures n < |net.nodes| && n < |net'.nodes| && LiveLoops(net'.nodes[n]) <= LiveLoops(net.nodes[n])
  {
    hide Arrives, Shape, Partition, Housed, NoneStranded, LiveLoops;
  }

  lemma HousedAt(g: Geometry, net: Net, n: nat, p: nat) returns (e: nat)
    requires WellFormed(g) && Recoverable(g, net, n) && n < |net.nodes| && p < |net.nodes[n].peers|
    requires !net.nodes[n].peers[p].Gone?
    ensures e < |net.ends| && net.ends[e].node == n && !PhaseAt(net, e).Gone?
  {
    hide Shape, Partition, NoneStranded;
    e :| 0 <= e < |net.ends| && net.ends[e].node == n && net.ends[e].peer == Some(p);
  }

  // --- its refund tasks end ---

  lemma RefundKeepsEnds(g: Geometry, H: bytes -> Digest, net: Net, n: nat, k: nat)
    requires WellFormed(g) && Possible(g, net, Refund(n, k))
    ensures var net' := Happen(g, H, net, Refund(n, k));
            && net'.ends == net.ends && |net'.nodes| == |net.nodes|
            && (forall f :: 0 <= f < |net.ends| ==> PhaseAt(net', f) == PhaseAt(net, f))
            && net'.nodes[n].peers == net.nodes[n].peers
            && net'.nodes[n]
            == Next(g, H, net.nodes[n], if net.nodes[n].refunds[k].Owed? then SubtractRefund(k) else PushRefund(k))
  {
    hide Happen, PhaseAt, Wired;
    Effect(g, H, net, Refund(n, k));
    EndsAfter(g, H, net, Refund(n, k));
  }

  function RefundsLeft(s: State): nat { SumBy(P.RefundWeight, s.refunds) }

  lemma RefundStep(g: Geometry, H: bytes -> Digest, s: State)
    requires WellFormed(g) && Shape(g, s) && Partition(g, s) && s.refunds != []
    ensures var s' := Next(g, H, s, if s.refunds[0].Owed? then SubtractRefund(0) else PushRefund(0));
            Shape(g, s') && Partition(g, s') && RefundsLeft(s') < RefundsLeft(s)
  {
    hide Shape, Partition, SumBy;
    var a := if s.refunds[0].Owed? then SubtractRefund(0) else PushRefund(0);
    OwnershipExactly(g, H, s, a);
    SumByUpdate(P.RefundWeight, s.refunds, 0, Returning(s.refunds[0].piece));
    SumByRemove(P.RefundWeight, s.refunds, 0);
  }

  lemma {:induction false} ReturnsAll(g: Geometry, H: bytes -> Digest, truth: bytes, net: Net, m: nat,
                                      clients: set<nat>, n: nat)
    returns (run: seq<Event>, net': Net)
    requires Truth(g, H, truth) && Star(g, truth, net, 0, m, clients) && n in clients && Recoverable(g, net, n)
    ensures StageOf(g, H, truth, net, m, clients, n, run, net')
    ensures n < |net.nodes| && n < |net'.nodes| && net'.nodes[n].refunds == []
    ensures net'.nodes[n].peers == net.nodes[n].peers
    decreases RefundsLeft(net.nodes[n])
  {
    hide Star, StageOf, Recoverable, RefundsLeft, Truth, Wired, Happen;
    TruthHolds(g, H, truth);
    RecoverableExists(g, net, n);
    if net.nodes[n].refunds == [] {
      run, net' := [], net;
      StandsStill(g, H, truth, net, m, clients, n);
    } else {
      ReturnsOne(g, H, truth, net, m, clients, n);
      var next := Happen(g, H, net, Refund(n, 0));
      StageIsRecoverable(g, H, truth, net, m, clients, n, [Refund(n, 0)], next);
      var rest;
      rest, net' := ReturnsAll(g, H, truth, next, m, clients, n);
      StageOn(g, H, truth, net, m, clients, n, [Refund(n, 0)], next, rest, net');
      run := [Refund(n, 0)] + rest;
    }
  }

  lemma ReturnsOne(g: Geometry, H: bytes -> Digest, truth: bytes, net: Net, m: nat, clients: set<nat>, n: nat)
    requires Truth(g, H, truth) && Star(g, truth, net, 0, m, clients) && n in clients && Recoverable(g, net, n)
    requires net.nodes[n].refunds != []
    ensures Possible(g, net, Refund(n, 0))
    ensures var net' := Happen(g, H, net, Refund(n, 0));
            && StageOf(g, H, truth, net, m, clients, n, [Refund(n, 0)], net')
            && n < |net'.nodes| && net'.nodes[n].peers == net.nodes[n].peers
            && RefundsLeft(net'.nodes[n]) < RefundsLeft(net.nodes[n])
  {
    hide Frame, AllSettled, Happen, Housed, Shape, Partition, AwayKept, RefundsLeft, Truth, Next, PhaseAt;
    TruthHolds(g, H, truth);
    FrameBasics(g, truth, net, 0, m, clients);
    var ev := Refund(n, 0);
    assert Possible(g, net, ev);
    var net' := Happen(g, H, net, ev);
    StarStays(g, H, truth, net, 0, m, clients, ev);
    EventKeepsAway(g, H, net, ev, m, n);
    ArrivesByEvent(g, H, truth, net, m, clients, n, ev);
    RefundKeepsEnds(g, H, net, n, 0);
    RefundStep(g, H, net.nodes[n]);
    HousedStays(net, net', n);
  }

  // --- and it starts over ---

  predicate HasAll(truth: bytes, s: State) { P.AllMarked(s) && s.disk == truth }

  lemma ClientCompletes(g: Geometry, H: bytes -> Digest, truth: bytes, net: Net, m: nat, clients: set<nat>, n: nat)
    returns (run: seq<Event>, net': Net)
    requires Truth(g, H, truth) && g.pieceLength + BLOCK <= U32
    requires Star(g, truth, net, 0, m, clients) && n in clients && Recoverable(g, net, n)
    ensures Arrives(g, H, truth, net, m, clients, n, run, net')
    ensures n < |net'.nodes| && HasAll(truth, net'.nodes[n])
  {
    hide Star, StageOf, Recoverable, Arrives, ClientAlone, Exchanging, Linked, Quiet, Truth, Wired, HasAll, Outcome,
      PossibleRun, AwayKept, OthersKept, OtherEndsKept, FirstEndsKept, KeepsPieces;
    TruthHolds(g, H, truth);
    var one, a := ClosesAll(g, H, truth, net, m, clients, n);
    StageIsRecoverable(g, H, truth, net, m, clients, n, one, a);
    var two, b := ReturnsAll(g, H, truth, a, m, clients, n);
    StageIsRecoverable(g, H, truth, a, m, clients, n, two, b);
    StageOn(g, H, truth, net, m, clients, n, one, a, two, b);
    IsAlone(g, b, n);
    var three, c := FetchesAll(g, H, truth, b, m, clients, n);
    StageArrives(g, H, truth, net, m, clients, n, one + two, b);
    ArrivesOn(g, H, truth, net, m, clients, n, one + two, b, three, c);
    run, net' := one + two + three, c;
  }

  lemma StageArrives(g: Geometry, H: bytes -> Digest, truth: bytes, net: Net, m: nat, clients: set<nat>, n: nat,
                     run: seq<Event>, net': Net)
    requires StageOf(g, H, truth, net, m, clients, n, run, net')
    ensures Arrives(g, H, truth, net, m, clients, n, run, net')
  {
    hide Arrives, Recoverable;
  }

  lemma IsAlone(g: Geometry, net: Net, n: nat)
    requires WellFormed(g) && Recoverable(g, net, n) && n < |net.nodes| && net.nodes[n].refunds == []
    requires forall q :: 0 <= q < |net.nodes[n].peers| ==> net.nodes[n].peers[q].Gone?
    ensures ClientAlone(g, net.nodes[n], None)
  {
    hide Shape, Partition, Housed, NoneStranded;
  }

  lemma FetchesAll(g: Geometry, H: bytes -> Digest, truth: bytes, net: Net, m: nat, clients: set<nat>, n: nat)
    returns (run: seq<Event>, net': Net)
    requires Truth(g, H, truth) && g.pieceLength + BLOCK <= U32
    requires Star(g, truth, net, 0, m, clients) && n in clients && n < |net.nodes| && ClientAlone(g, net.nodes[n], None)
    ensures Arrives(g, H, truth, net, m, clients, n, run, net')
    ensures n < |net'.nodes| && HasAll(truth, net'.nodes[n])
  {
    hide Star, ClientAlone, Exchanging, Linked, Quiet, Truth, Wired, Outcome, PossibleRun, AwayKept, OthersKept,
      OtherEndsKept, FirstEndsKept, KeepsPieces, OfLink, P.AllMarked;
    TruthHolds(g, H, truth);
    var e := |net.ends|;
    var connect := Connecting(g, H, truth, net, 0, m, clients, n);
    var one := Outcome(g, H, net, connect);
    ExchangeIsLinked(g, truth, one, 0, m, clients, e);
    var exchange := LinkEnds(g, H, truth, one, 0, m, clients, e);
    net' := Outcome(g, H, one, exchange);
    QuietIsDone(g, truth, net', 0, m, clients, e);
    LinkHasEnds(g, truth, net', 0, m, clients, e);
    OfLinkNoReset(e, exchange);
    LinkIs(g, truth, one, 0, m, clients, e);
    LinkedIsStar(g, truth, one, m, clients, e);
    LinkedIsStar(g, truth, net', m, clients, e);
    StarBasics(g, truth, net, 0, m, clients);
    NewKeepsAway(net, one, m, n);
    LinkHasEnds(g, truth, one, 0, m, clients, e);
    LinkKeepsAway(one, net', m, n, e);
    run := connect + exchange;
    ArrivesOn(g, H, truth, net, m, clients, n, connect, one, exchange, net');
  }

  lemma LinkedIsStar(g: Geometry, truth: bytes, net: Net, m: nat, clients: set<nat>, e: nat)
    requires WellFormed(g) && |truth| == g.total && Linked(g, truth, net, 0, m, clients, e)
    ensures Star(g, truth, net, 0, m, clients)
  {
    hide Star;
  }

  lemma NewKeepsAway(net: Net, net': Net, m: nat, n: nat)
    requires OthersKept(net, net', m, n) && FirstEndsKept(net, net') && |net'.ends| == |net.ends| + 2
    requires net'.ends[|net.ends|].node == n && Other(|net.ends|) == |net.ends| + 1
    requires net'.ends[Other(|net.ends|)].node == m
    ensures AwayKept(net, net', m, n)
  {
    hide PhaseAt;
  }

  // --- all clients ---

  lemma RecoverableStays(g: Geometry, truth: bytes, net: Net, net': Net, m: nat, clients: set<nat>, n: nat, k: nat)
    requires WellFormed(g) && |truth| == g.total && Star(g, truth, net, 0, m, clients)
    requires AwayKept(net, net', m, n) && n in clients && k in clients && k != n && Recoverable(g, net, k)
    ensures Recoverable(g, net', k)
  {
    hide Star, Shape, Partition, PhaseAt, RepliesIn, Wired, ClientEnd, Seeder;
    StarBasics(g, truth, net, 0, m, clients);
    forall p | 0 <= p < |net'.nodes[k].peers| && !net'.nodes[k].peers[p].Gone?
      ensures exists e :: 0 <= e < |net'.ends| && net'.ends[e].node == k && net'.ends[e].peer == Some(p)
    {
      var e :| 0 <= e < |net.ends| && net.ends[e].node == k && net.ends[e].peer == Some(p);
      StarLink(g, truth, net, m, clients, e, k);
      assert net'.ends[e] == net.ends[e];
    }
    forall e | 0 <= e < |net'.ends| && net'.ends[e].node == k && Other(e) < |net'.ends|
               && !PhaseAt(net', e).Gone? && Ended(net', Other(e))
      ensures RepliesIn(net'.ends[e].inbox) == []
    {
      assert e < |net.ends|;
      StarLink(g, truth, net, m, clients, e, k);
      TwiceOther(e);
      assert net'.ends[e] == net.ends[e] && net'.ends[Other(e)] == net.ends[Other(e)];
    }
  }

  // The clients below `count`.
  lemma {:induction false} FirstClientsComplete(g: Geometry, H: bytes -> Digest, truth: bytes, net: Net, m: nat,
                                                clients: set<nat>, count: nat)
    returns (run: seq<Event>)
    requires Truth(g, H, truth) && g.pieceLength + BLOCK <= U32 && Star(g, truth, net, 0, m, clients)
    requires forall k :: k in clients ==> Recoverable(g, net, k)
    ensures PossibleRun(g, H, net, run) && forall ev :: ev in run ==> !ev.Reset?
    ensures var after := Outcome(g, H, net, run);
            && Star(g, truth, after, 0, m, clients) && |after.nodes| == |net.nodes|
            && (forall k :: k in clients && k < count ==> k < |after.nodes| && HasAll(truth, after.nodes[k]))
            && (forall k :: k in clients && k >= count ==> Recoverable(g, after, k))
    decreases count
  {
    hide Star, Recoverable, HasAll, Truth, PossibleRun, Outcome, AwayKept;
    TruthHolds(g, H, truth);
    if count == 0 {
      run := [];
      assert PossibleRun(g, H, net, run) && Outcome(g, H, net, run) == net by { EmptyRun(g, H, net); }
    } else {
      var before := FirstClientsComplete(g, H, truth, net, m, clients, count - 1);
      var mid := Outcome(g, H, net, before);
      if count - 1 in clients {
        var last, after := ClientCompletes(g, H, truth, mid, m, clients, count - 1);
        EventsConcat(g, H, net, before, last);
        run := before + last;
        KeepsNodes(mid, after, m, count - 1);
        StarBasics(g, truth, mid, 0, m, clients);
        forall k | k in clients && k >= count ensures Recoverable(g, after, k) {
          RecoverableStays(g, truth, mid, after, m, clients, count - 1, k);
        }
      } else {
        run := before;
      }
    }
  }

  // Clients around a seeder, each with its pieces, its running loops on connections, and no stranded reply: they can
  // all get the whole content without a new session of anyone.
  lemma ClientsComplete(g: Geometry, H: bytes -> Digest, truth: bytes, net: Net, m: nat, clients: set<nat>)
    returns (run: seq<Event>)
    requires Truth(g, H, truth) && g.pieceLength + BLOCK <= U32 && Star(g, truth, net, 0, m, clients)
    requires forall k :: k in clients ==> Recoverable(g, net, k)
    ensures PossibleRun(g, H, net, run) && forall ev :: ev in run ==> !ev.Reset?
    ensures var after := Outcome(g, H, net, run);
            && Star(g, truth, after, 0, m, clients)
            && forall k :: k in clients ==> k < |after.nodes| && HasAll(truth, after.nodes[k])
  {
    hide Star, Recoverable, HasAll, Truth, PossibleRun, Outcome;
    TruthHolds(g, H, truth);
    StarBasics(g, truth, net, 0, m, clients);
    run := FirstClientsComplete(g, H, truth, net, m, clients, |net.nodes|);
  }

  lemma EmptyRun(g: Geometry, H: bytes -> Digest, net: Net)
    requires WellFormed(g)
    ensures PossibleRun(g, H, net, []) && Outcome(g, H, net, []) == net
  {
  }

  lemma KeepsNodes(net: Net, net': Net, m: nat, n: nat)
    requires AwayKept(net, net', m, n)
    ensures OthersKept(net, net', m, n)
  {
  }

  // --- every run ---

  // No peer loop ends between completing a piece and marking it.
  predicate Whole(net: Net, ev: Event) { ev.Hangup? ==> !(PhaseAt(net, ev.e).Finished? && PhaseAt(net, ev.e).held) }

  predicate WholeRun(g: Geometry, H: bytes -> Digest, net: Net, run: seq<Event>)
    requires WellFormed(g) && PossibleRun(g, H, net, run)
    decreases |run|
  {
    run == [] || (Whole(net, run[0]) && WholeRun(g, H, Happen(g, H, net, run[0]), run[1..]))
  }

  // The client's pieces have owners, and its peer loops connections.
  predicate Intact(g: Geometry, net: Net, n: nat)
    requires WellFormed(g)
  {
    n < |net.nodes| && Shape(g, net.nodes[n]) && Partition(g, net.nodes[n]) && Housed(net, n)
  }

  lemma PartitionStays(g: Geometry, H: bytes -> Digest, truth: bytes, net: Net, base: nat, m: nat, clients: set<nat>,
                       ev: Event, n: nat)
    requires WellFormed(g) && |truth| == g.total && Frame(g, truth, net, base, m, clients) && n in clients
    requires Possible(g, net, ev) && InStar(g, H, truth, net, base, m, clients, ev) && Whole(net, ev)
    requires n < |net.nodes| && Partition(g, net.nodes[n])
    ensures n < |Happen(g, H, net, ev).nodes| && Shape(g, Happen(g, H, net, ev).nodes[n])
    ensures Partition(g, Happen(g, H, net, ev).nodes[n])
  {
    hide Happen, Next, Wired, Seeder, FrameEnd, Shape, Partition, NoFalseMatch;
    EndsAfter(g, H, net, ev);
    if NodeOf(g, net, ev) == n && StepOf(g, net, ev).Some? {
      var s, a := net.nodes[n], StepOf(g, net, ev).value;
      if a.Restart? {
        RestartKeeps(g, H, s);
        InvIsOwned(g, Next(g, H, s, a));
      } else {
        if !a.Credit? {
          StepIsHarmless(g, truth, net, base, m, clients, ev);
        }
        OwnershipExactly(g, H, s, a);
      }
    }
    ClientShape(g, H, truth, net, base, m, clients, ev, n);
  }

  lemma InvIsOwned(g: Geometry, s: State)
    requires Inv(g, s)
    ensures WellFormed(g) && Shape(g, s) && Partition(g, s)
  {
  }

  lemma StepIsHarmless(g: Geometry, truth: bytes, net: Net, base: nat, m: nat, clients: set<nat>, ev: Event)
    requires WellFormed(g) && |truth| == g.total && Frame(g, truth, net, base, m, clients) && Whole(net, ev)
    requires Possible(g, net, ev) && NodeOf(g, net, ev) in clients && StepOf(g, net, ev).Some?
    requires !StepOf(g, net, ev).value.Credit? && (ActorOf(ev).Some? ==> ActorOf(ev).value >= base)
    ensures Harmless(g, net.nodes[NodeOf(g, net, ev)], StepOf(g, net, ev).value)
  {
    hide Seeder, Shape, Wired, WellPlaced, Pending;
    if ev.Proceed? || ev.Hangup? {
      assert FrameEnd(g, truth, net, m, clients, ev.e);
      WiredAt(net, ev.e);
      EndOfClient(g, truth, net, m, clients, ev.e);
    }
  }

  lemma HousedAfter(g: Geometry, H: bytes -> Digest, net: Net, ev: Event, n: nat)
    requires WellFormed(g) && Possible(g, net, ev) && n < |net.nodes| && Housed(net, n)
    ensures n < |Happen(g, H, net, ev).nodes| && Housed(Happen(g, H, net, ev), n)
  {
    hide Happen, Next, Wired, Sent;
    EndsAfter(g, H, net, ev);
    var net' := Happen(g, H, net, ev);
    forall p | 0 <= p < |net'.nodes[n].peers| && !net'.nodes[n].peers[p].Gone?
      ensures exists e :: 0 <= e < |net'.ends| && net'.ends[e].node == n && net'.ends[e].peer == Some(p)
    {
      if p < |net.nodes[n].peers| {
        LoopWasThere(g, H, net, ev, n, p);
        var e :| 0 <= e < |net.ends| && net.ends[e].node == n && net.ends[e].peer == Some(p);
        assert net'.ends[e] == EndAfter(g, H, net, ev, e);
      } else {
        LoopIsNew(g, H, net, ev, n, p);
        assert net'.ends[ev.e] == EndAfter(g, H, net, ev, ev.e);
      }
    }
  }

  lemma LoopWasThere(g: Geometry, H: bytes -> Digest, net: Net, ev: Event, n: nat, p: nat)
    requires WellFormed(g) && Possible(g, net, ev) && n < |net.nodes| && p < |net.nodes[n].peers|
    requires n < |Happen(g, H, net, ev).nodes| && p < |Happen(g, H, net, ev).nodes[n].peers|
    requires !Happen(g, H, net, ev).nodes[n].peers[p].Gone?
    ensures !net.nodes[n].peers[p].Gone?
  {
    hide Happen, Next, Wired;
    EndsAfter(g, H, net, ev);
    if NodeOf(g, net, ev) == n && StepOf(g, net, ev).Some? {
      NextPeers(g, H, net.nodes[n], StepOf(g, net, ev).value);
    }
  }

  lemma LoopIsNew(g: Geometry, H: bytes -> Digest, net: Net, ev: Event, n: nat, p: nat)
    requires WellFormed(g) && Possible(g, net, ev) && n < |net.nodes| && |net.nodes[n].peers| <= p
    requires n < |Happen(g, H, net, ev).nodes| && p < |Happen(g, H, net, ev).nodes[n].peers|
    ensures ev.Begin? && ev.e < |net.ends| && net.ends[ev.e].node == n && p == |net.nodes[n].peers|
  {
    hide Happen, Next, Wired;
    EndsAfter(g, H, net, ev);
    NodesGrow(g, H, net, ev);
    if NodeOf(g, net, ev) == n && StepOf(g, net, ev).Some? {
      NextPeers(g, H, net.nodes[n], StepOf(g, net, ev).value);
    }
  }

  lemma {:induction false} RunStaysIntact(g: Geometry, H: bytes -> Digest, truth: bytes, net: Net, base: nat, m: nat,
                                          clients: set<nat>, run: seq<Event>)
    requires Truth(g, H, truth) && Frame(g, truth, net, base, m, clients)
    requires PossibleRun(g, H, net, run) && StarRun(g, H, truth, net, base, m, clients, run) && WholeRun(g, H, net, run)
    requires forall n :: n in clients ==> Intact(g, net, n)
    ensures forall n :: n in clients ==> Intact(g, Outcome(g, H, net, run), n)
    decreases |run|
  {
    hide Frame, InStar, Possible, Happen, Whole, Truth, Shape, Partition, Housed;
    TruthHolds(g, H, truth);
    if run != [] {
      FrameStays(g, H, truth, net, base, m, clients, run[0]);
      forall n | n in clients ensures Intact(g, Happen(g, H, net, run[0]), n) {
        assert Intact(g, net, n);
        PartitionStays(g, H, truth, net, base, m, clients, run[0], n);
        HousedAfter(g, H, net, run[0], n);
      }
      RunStaysIntact(g, H, truth, Happen(g, H, net, run[0]), base, m, clients, run[1..]);
    }
  }

  lemma StartIsIntact(g: Geometry, H: bytes -> Digest, disks: seq<bytes>, n: nat)
    requires WellFormed(g) && (forall d :: d in disks ==> |d| == g.total) && n < |disks|
    ensures Intact(g, Start(g, H, disks), n)
  {
    hide Start, Shape, Partition, Resume;
    StartNodes(g, H, disks);
    ResumeInv(g, H, disks[n]);
    InvIsOwned(g, Resume(g, H, disks[n]));
    ResumeHasNoPeers(g, H, disks[n]);
  }

  lemma SeederHasAll(g: Geometry, truth: bytes, net: Net, m: nat, clients: set<nat>)
    requires WellFormed(g) && |truth| == g.total && Star(g, truth, net, 0, m, clients)
    ensures m < |net.nodes| && HasAll(truth, net.nodes[m])
  {
    hide AllSettled, Wired, FrameEnd, Shape;
  }

  lemma {:induction false} SameEngines(g: Geometry, H: bytes -> Digest, net: Net, run: seq<Event>)
    requires WellFormed(g) && PossibleRun(g, H, net, run)
    ensures |Outcome(g, H, net, run).nodes| == |net.nodes|
    decreases |run|
  {
    hide Possible, Happen;
    if run != [] {
      EndsAfter(g, H, net, run[0]);
      SameEngines(g, H, Happen(g, H, net, run[0]), run[1..]);
    }
  }

  lemma SwarmIsRecoverable(g: Geometry, H: bytes -> Digest, truth: bytes, disks: seq<bytes>, m: nat, run: seq<Event>)
    requires Truth(g, H, truth) && m < |disks| && disks[m] == truth
    requires forall d :: d in disks ==> |d| == g.total && NoFalseMatch(g, H, truth, d)
    requires PossibleRun(g, H, Start(g, H, disks), run)
    requires StarRun(g, H, truth, Start(g, H, disks), 0, m, Clients(|disks|, m), run)
    requires KeepsRun(g, H, truth, Start(g, H, disks), 0, Clients(|disks|, m), run)
    requires WholeRun(g, H, Start(g, H, disks), run)
    requires forall n :: 0 <= n < |disks| && n != m ==> NoneStranded(Outcome(g, H, Start(g, H, disks), run), n)
    ensures var net, clients := Outcome(g, H, Start(g, H, disks), run), Clients(|disks|, m);
            && |net.nodes| == |disks| && Star(g, truth, net, 0, m, clients)
            && forall k :: k in clients ==> Recoverable(g, net, k)
  {
    hide Truth, NoFalseMatch, PossibleRun, StarRun, KeepsRun, WholeRun, Outcome, Start, Star, NoneStranded, Shape,
      Partition, Housed;
    TruthHolds(g, H, truth);
    var clients, start := Clients(|disks|, m), Start(g, H, disks);
    StartIsStar(g, H, truth, disks, m);
    StarIs(g, truth, start, 0, m, clients);
    forall n | n in clients ensures Intact(g, start, n) {
      StartIsIntact(g, H, disks, n);
    }
    RunStaysStarExactly(g, H, truth, start, 0, m, clients, run);
    RunStaysIntact(g, H, truth, start, 0, m, clients, run);
    StartNodes(g, H, disks);
    SameEngines(g, H, start, run);
    forall k | k in clients ensures Recoverable(g, Outcome(g, H, start, run), k) {
      assert Intact(g, Outcome(g, H, start, run), k);
    }
  }

  // Engine m is started on the true content and the others on any disks; connections lead to m. After any run that
  // loses nothing, in which no peer loop ended before it marked its piece, and which leaves no reply stranded: the run
  // can be continued, without a new session of any engine, until all have exactly the true content.
  lemma SwarmCompletes(g: Geometry, H: bytes -> Digest, truth: bytes, disks: seq<bytes>, m: nat, run: seq<Event>)
    returns (more: seq<Event>)
    requires Truth(g, H, truth) && g.pieceLength + BLOCK <= U32 && m < |disks| && disks[m] == truth
    requires forall d :: d in disks ==> |d| == g.total && NoFalseMatch(g, H, truth, d)
    requires PossibleRun(g, H, Start(g, H, disks), run)
    requires StarRun(g, H, truth, Start(g, H, disks), 0, m, Clients(|disks|, m), run)
    requires KeepsRun(g, H, truth, Start(g, H, disks), 0, Clients(|disks|, m), run)
    requires WholeRun(g, H, Start(g, H, disks), run)
    requires forall n :: 0 <= n < |disks| && n != m ==> NoneStranded(Outcome(g, H, Start(g, H, disks), run), n)
    ensures PossibleRun(g, H, Start(g, H, disks), run + more) && forall ev :: ev in more ==> !ev.Reset?
    ensures var net := Outcome(g, H, Start(g, H, disks), run + more);
            |net.nodes| == |disks| && forall s :: s in net.nodes ==> HasAll(truth, s)
  {
    hide Truth, NoFalseMatch, PossibleRun, StarRun, KeepsRun, WholeRun, Outcome, Start, Star, NoneStranded, HasAll,
      Recoverable;
    TruthHolds(g, H, truth);
    var clients, start := Clients(|disks|, m), Start(g, H, disks);
    SwarmIsRecoverable(g, H, truth, disks, m, run);
    var net := Outcome(g, H, start, run);
    more := ClientsComplete(g, H, truth, net, m, clients);
    EventsConcat(g, H, start, run, more);
    var after := Outcome(g, H, net, more);
    SeederHasAll(g, truth, after, m, clients);
    SameEngines(g, H, net, more);
    assert forall k :: 0 <= k < |after.nodes| ==> HasAll(truth, after.nodes[k]);
  }

  // In particular after every run in which nobody closes a connection, however often blocks were requested, sent and
  // counted twice.
  lemma CalmSwarmCompletes(g: Geometry, H: bytes -> Digest, truth: bytes, disks: seq<bytes>, m: nat, run: seq<Event>)
    returns (more: seq<Event>)
    requires Truth(g, H, truth) && g.pieceLength + BLOCK <= U32 && m < |disks| && disks[m] == truth
    requires forall d :: d in disks ==> |d| == g.total && NoFalseMatch(g, H, truth, d)
    requires PossibleRun(g, H, Start(g, H, disks), run)
    requires StarRun(g, H, truth, Start(g, H, disks), 0, m, Clients(|disks|, m), run) && NobodyLeaves(m, run)
    ensures PossibleRun(g, H, Start(g, H, disks), run + more) && forall ev :: ev in more ==> !ev.Reset?
    ensures var net := Outcome(g, H, Start(g, H, disks), run + more);
            |net.nodes| == |disks| && forall s :: s in net.nodes ==> HasAll(truth, s)
  {
    hide Truth, NoFalseMatch, PossibleRun, StarRun, KeepsRun, WholeRun, Outcome, Start, Star, HasAll;
    TruthHolds(g, H, truth);
    var clients, start := Clients(|disks|, m), Start(g, H, disks);
    StartIsStar(g, H, truth, disks, m);
    StartNodes(g, H, disks);
    CalmRunKeeps(g, H, truth, start, 0, m, clients, run);
    CalmRunIsWhole(g, H, truth, start, m, clients, run);
    var net := Outcome(g, H, start, run);
    forall n | 0 <= n < |disks| && n != m ensures NoneStranded(net, n) {
      UpIsNotStranded(g, truth, net, m, clients, n);
    }
    more := SwarmCompletes(g, H, truth, disks, m, run);
  }

  lemma {:induction false} CalmRunIsWhole(g: Geometry, H: bytes -> Digest, truth: bytes, net: Net, m: nat,
                                          clients: set<nat>, run: seq<Event>)
    requires Truth(g, H, truth) && Star(g, truth, net, 0, m, clients) && ServersUp(net, 0, m)
    requires PossibleRun(g, H, net, run) && StarRun(g, H, truth, net, 0, m, clients, run) && NobodyLeaves(m, run)
    ensures WholeRun(g, H, net, run) && ServersUp(Outcome(g, H, net, run), 0, m)
    decreases |run|
  {
    hide Star, InStar, Possible, Happen, Keeps, ServersUp, Truth;
    TruthHolds(g, H, truth);
    if run != [] {
      assert run[0] in run && forall ev :: ev in run[1..] ==> ev in run;
      CalmKeeps(g, H, truth, net, 0, m, clients, run[0]);
      StarStaysExactly(g, H, truth, net, 0, m, clients, run[0]);
      CalmRunIsWhole(g, H, truth, Happen(g, H, net, run[0]), m, clients, run[1..]);
    }
  }

  lemma UpIsNotStranded(g: Geometry, truth: bytes, net: Net, m: nat, clients: set<nat>, n: nat)
    requires WellFormed(g) && |truth| == g.total && Star(g, truth, net, 0, m, clients) && n in clients
    requires ServersUp(net, 0, m)
    ensures NoneStranded(net, n)
  {
    hide Star, Ended, PhaseAt, RepliesIn, Wired, Seeder, ClientEnd;
    forall e | 0 <= e < |net.ends| && net.ends[e].node == n && Other(e) < |net.ends| ensures !Ended(net, Other(e)) {
      StarLink(g, truth, net, m, clients, e, n);
    }
  }

  // A created torrent: engine m is started over the files it was made from.
  lemma CreatedSwarmCompletes(H: bytes -> Digest, source: Creator.Source, disks: seq<bytes>, m: nat, run: seq<Event>)
    returns (more: seq<Event>)
    requires CeilDiv(|Creator.AllContent(source)|, Creator.DEFAULT_PIECE_LENGTH) < U32
    requires forall d :: d in disks ==> |d| == |Creator.AllContent(source)|
    requires m < |disks| && disks[m] == Creator.AllContent(source)
    requires WellFormed(Creator.CreatedGeometry(H, source))
    requires var g, truth := Creator.CreatedGeometry(H, source), Creator.AllContent(source);
             && g.total == |truth| && (forall d :: d in disks ==> NoFalseMatch(g, H, truth, d))
             && PossibleRun(g, H, Start(g, H, disks), run)
             && StarRun(g, H, truth, Start(g, H, disks), 0, m, Clients(|disks|, m), run) && NobodyLeaves(m, run)
    ensures var g, truth := Creator.CreatedGeometry(H, source), Creator.AllContent(source);
            && PossibleRun(g, H, Start(g, H, disks), run + more) && (forall ev :: ev in more ==> !ev.Reset?)
            && |Outcome(g, H, Start(g, H, disks), run + more).nodes| == |disks|
            && forall s :: s in Outcome(g, H, Start(g, H, disks), run + more).nodes ==> HasAll(truth, s)
  {
    var g, truth := Creator.CreatedGeometry(H, source), Creator.AllContent(source);
    assert g.pieceLength + BLOCK <= U32;
    CreatedTruth(H, source);
    hide *;
    more := CalmSwarmCompletes(g, H, truth, disks, m, run);
  }
}
